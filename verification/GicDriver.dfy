/** The GICv3 driver: the static base addresses, the setters over them, and
    what the setters called for one interrupt add up to. */
module GicDriver {
  import Bits
  import opened Gic

  function Perform(hw: Gicv3, m: Mmio, w: Write): Mmio {
    Store(hw, m, w.address, w.value)
  }

  function RouterAddr(frame: bv64, id: bv32): Address {
    Address(frame, GICD_IROUTER + 8 * (id as bv64))
  }

  /** The 64-bit routing register of `id` written with zero, as two words. */
  function Route(hw: Gicv3, dist: bv64, m: Mmio, id: bv32): Mmio {
    var a := RouterAddr(dist, id);
    Store(hw, Store(hw, m, a, 0), Address(dist, a.offset + 4), 0)
  }

  /** What the UART setup writes for SPI `id`, with the GIC believed to be at `g`. */
  function ConfigureSpi(hw: Gicv3, g: Gicv3, m: Mmio, id: bv32, edge: bool): Mmio {
    var m1 := Perform(hw, m, WriteFor(m, g.dist, false, id, Trigger(ModeOf(edge))));
    var m2 := Perform(hw, m1, WriteFor(m1, g.dist, false, id, Priority(0)));
    var m3 := Perform(hw, m2, WriteFor(m2, g.dist, false, id, Group1));
    var m4 := Route(hw, g.dist, m3, id);
    Perform(hw, m4, WriteFor(m4, g.dist, false, id, Enable))
  }

  /** What the timer setup writes for PPI `id`. */
  function ConfigurePpi(hw: Gicv3, g: Gicv3, m: Mmio, id: bv32, edge: bool): Mmio {
    var m1 := Perform(hw, m, WriteFor(m, g.Sgi(), true, id, Trigger(ModeOf(edge))));
    var m2 := Perform(hw, m1, WriteFor(m1, g.Sgi(), true, id, Priority(0)));
    var m3 := Perform(hw, m2, WriteFor(m2, g.Sgi(), true, id, Group1));
    Perform(hw, m3, WriteFor(m3, g.Sgi(), true, id, Enable))
  }

  lemma RouterApart(hw: Gicv3, id: bv32, j: bv32, extra: bv64)
    requires hw.dist != hw.Sgi() && id < ID_LIMIT && j < ID_LIMIT && (extra == 0 || extra == 4)
    ensures var a := Address(hw.dist, GICD_IROUTER + 8 * (id as bv64) + extra);
      && !IsSetEnable(hw, a)
      && a != PriorityAddr(hw.FrameOf(j), j) && a != TriggerAddr(hw.FrameOf(j), j)
      && a != GroupAddr(hw.FrameOf(j), j) && a != EnableAddr(hw.FrameOf(j), j)
  {
  }

  lemma StoreElsewhereKeeps(hw: Gicv3, m: Mmio, a: Address, v: bv32, j: bv32)
    requires a != PriorityAddr(hw.FrameOf(j), j) && a != TriggerAddr(hw.FrameOf(j), j)
    requires a != GroupAddr(hw.FrameOf(j), j) && a != EnableAddr(hw.FrameOf(j), j)
    ensures Decode(hw, Store(hw, m, a, v), j) == Decode(hw, m, j)
  {
    hide Field, PriorityShift, TriggerShift, BitShift, IsSetEnable, Gicv3.FrameOf, Decode;
    hide PriorityAddr, TriggerAddr, GroupAddr, EnableAddr;
    LayoutIsArchitectural(hw, m, j);
    LayoutIsArchitectural(hw, Store(hw, m, a, v), j);
  }

  lemma RouteKeeps(hw: Gicv3, m: Mmio, id: bv32, j: bv32)
    requires hw.dist != hw.Sgi() && id < ID_LIMIT && j < ID_LIMIT
    ensures Decode(hw, Route(hw, hw.dist, m, id), j) == Decode(hw, m, j)
  {
    hide Decode, Store, PriorityAddr, TriggerAddr, GroupAddr, EnableAddr;
    RouterApart(hw, id, j, 0);
    RouterApart(hw, id, j, 4);
    var a := RouterAddr(hw.dist, id);
    StoreElsewhereKeeps(hw, m, a, 0, j);
    StoreElsewhereKeeps(hw, Store(hw, m, a, 0), Address(hw.dist, a.offset + 4), 0, j);
  }

  /** An SPI set up by a driver that has the right base addresses ends in group
      1, at priority 0, enabled, with the given trigger; no other interrupt changes. */
  lemma SpiConfigured(hw: Gicv3, m: Mmio, id: bv32, edge: bool, j: bv32)
    requires hw.dist != hw.Sgi() && FIRST_SPI <= id < ID_LIMIT && j < ID_LIMIT
    ensures Decode(hw, ConfigureSpi(hw, hw, m, id, edge), j) ==
            if j == id then IrqConfig(0, if edge then 2 else 0, true, true) else Decode(hw, m, j)
  {
    hide Decode, WriteFor, Route, Store;
    var m1 := Set(hw, hw, m, id, Trigger(ModeOf(edge)));
    var m2 := Set(hw, hw, m1, id, Priority(0));
    var m3 := Set(hw, hw, m2, id, Group1);
    SetRefines(hw, m, id, Trigger(ModeOf(edge)), j);
    SetRefines(hw, m1, id, Priority(0), j);
    SetRefines(hw, m2, id, Group1, j);
    RouteKeeps(hw, m3, id, j);
    SetRefines(hw, Route(hw, hw.dist, m3, id), id, Enable, j);
  }

  lemma PpiConfigured(hw: Gicv3, m: Mmio, id: bv32, edge: bool, j: bv32)
    requires hw.dist != hw.Sgi() && id < FIRST_SPI && j < ID_LIMIT
    ensures Decode(hw, ConfigurePpi(hw, hw, m, id, edge), j) ==
            if j == id then IrqConfig(0, if edge then 2 else 0, true, true) else Decode(hw, m, j)
  {
    hide Decode, WriteFor, Store;
    var m1 := Set(hw, hw, m, id, Trigger(ModeOf(edge)));
    var m2 := Set(hw, hw, m1, id, Priority(0));
    var m3 := Set(hw, hw, m2, id, Group1);
    SetRefines(hw, m, id, Trigger(ModeOf(edge)), j);
    SetRefines(hw, m1, id, Priority(0), j);
    SetRefines(hw, m2, id, Group1, j);
    SetRefines(hw, m3, id, Enable, j);
  }

  lemma NoBits(s: bv32)
    requires s <= 31
    ensures ShiftTo(LEVEL, s) == 0
  {
  }

  lemma WithNoBits(reg: bv32)
    ensures WithBits(reg, 0) == reg
  {
  }

  /** Clearing the field, as the level setter does, stores the level encoding. */
  lemma LevelField(reg: bv32, s: bv32)
    requires s <= 31
    ensures WithField(reg, 3, s, LEVEL) == WithoutBits(reg, ShiftTo(3, s))
  {
    hide WithBits, WithoutBits, ShiftTo;
    NoBits(s);
    WithNoBits(WithoutBits(reg, ShiftTo(3, s)));
  }

  lemma SmallId(id: bv32, frame: bv64)
    requires id < FIRST_SPI
    ensures 1 << id == BitOf(id)
    ensures Address(frame, IGROUPR) == GroupAddr(frame, id) && Address(frame, ISENABLER) == EnableAddr(frame, id)
  {
  }

  class Driver {
    const hw: Gicv3        // where the hardware is
    var bases: Gicv3       // where the driver believes it is
    var mmio: Mmio

    constructor (hw: Gicv3, m: Mmio)
      ensures this.hw == hw && bases == Gicv3(0, 0) && mmio == m
    {
      this.hw, bases, mmio := hw, Gicv3(0, 0), m;
    }

    method ReadMmio32(a: Address) returns (v: bv32)
      ensures v == mmio.cells(a)
    {
      v := mmio.cells(a);
    }

    method WriteMmio32(a: Address, v: bv32)
      modifies this`mmio
      ensures mmio == Store(hw, old(mmio), a, v)
    {
      mmio := Store(hw, mmio, a, v);
    }

    method SetMmioBits32(a: Address, bits: bv32)
      modifies this`mmio
      ensures mmio == Store(hw, old(mmio), a, WithBits(old(mmio).cells(a), bits))
    {
      hide Store, WithBits;
      var v := ReadMmio32(a);
      WriteMmio32(a, WithBits(v, bits));
    }

    method ClearMmioBits32(a: Address, bits: bv32)
      modifies this`mmio
      ensures mmio == Store(hw, old(mmio), a, WithoutBits(old(mmio).cells(a), bits))
    {
      hide Store, WithoutBits;
      var v := ReadMmio32(a);
      WriteMmio32(a, WithoutBits(v, bits));
    }

    /** The body shared by set_ppi_priority and set_spi_priority. */
    method SetPriority(frame: bv64, ppi: bool, id: bv32, prio: bv32)
      modifies this`mmio
      ensures mmio == Perform(hw, old(mmio), WriteFor(old(mmio), frame, ppi, id, Priority(prio)))
    {
      hide Store, PriorityAddr, PriorityShift, TriggerAddr, TriggerShift, GroupAddr, EnableAddr, BitOf,
        Gicv3.Sgi, WithBits, WithoutBits, ShiftTo;
      var a := PriorityAddr(frame, id);
      var v := ReadMmio32(a);
      v := WithoutBits(v, ShiftTo(0xFF, PriorityShift(id)));
      v := WithBits(v, ShiftTo(prio, PriorityShift(id)));
      WriteMmio32(a, v);
    }

    method SetTriggerLevel(frame: bv64, ppi: bool, id: bv32)
      modifies this`mmio
      ensures mmio == Perform(hw, old(mmio), WriteFor(old(mmio), frame, ppi, id, Trigger(LEVEL)))
    {
      hide Store, PriorityAddr, PriorityShift, TriggerAddr, TriggerShift, GroupAddr, EnableAddr, BitOf,
        Gicv3.Sgi, WithBits, WithoutBits, ShiftTo;
      var a := TriggerAddr(frame, id);
      var v := ReadMmio32(a);
      LevelField(v, TriggerShift(id));
      v := WithoutBits(v, ShiftTo(3, TriggerShift(id)));
      WriteMmio32(a, v);
    }

    method SetTriggerEdge(frame: bv64, ppi: bool, id: bv32)
      modifies this`mmio
      ensures mmio == Perform(hw, old(mmio), WriteFor(old(mmio), frame, ppi, id, Trigger(EDGE)))
    {
      hide Store, PriorityAddr, PriorityShift, TriggerAddr, TriggerShift, GroupAddr, EnableAddr, BitOf,
        Gicv3.Sgi, WithBits, WithoutBits, ShiftTo;
      var a := TriggerAddr(frame, id);
      var v := ReadMmio32(a);
      v := WithoutBits(v, ShiftTo(3, TriggerShift(id)));
      v := WithBits(v, ShiftTo(EDGE, TriggerShift(id)));
      WriteMmio32(a, v);
    }

    /** Fails where `1 << id` overflows. */
    method SetPpiGroup(id: bv32) returns (ok: bool)
      modifies this`mmio
      ensures ok <==> id < FIRST_SPI
      ensures ok ==> mmio == Perform(hw, old(mmio), WriteFor(old(mmio), bases.Sgi(), true, id, Group1))
    {
      hide Store, PriorityAddr, PriorityShift, TriggerAddr, TriggerShift, GroupAddr, EnableAddr, BitOf,
        Gicv3.Sgi, WithBits, WithoutBits;
      if id >= 32 {
        return false;
      }
      SmallId(id, bases.Sgi());
      SetMmioBits32(Address(bases.Sgi(), IGROUPR), 1 << id);
      ok := true;
    }

    method EnablePpi(id: bv32) returns (ok: bool)
      modifies this`mmio
      ensures ok <==> id < FIRST_SPI
      ensures ok ==> mmio == Perform(hw, old(mmio), WriteFor(old(mmio), bases.Sgi(), true, id, Enable))
    {
      hide Store, PriorityAddr, PriorityShift, TriggerAddr, TriggerShift, GroupAddr, EnableAddr, BitOf,
        Gicv3.Sgi, WithBits, WithoutBits;
      if id >= 32 {
        return false;
      }
      SmallId(id, bases.Sgi());
      SetMmioBits32(Address(bases.Sgi(), ISENABLER), 1 << id);
      ok := true;
    }

    method SetSpiGroup(id: bv32)
      modifies this`mmio
      ensures mmio == Perform(hw, old(mmio), WriteFor(old(mmio), bases.dist, false, id, Group1))
    {
      hide Store, PriorityAddr, PriorityShift, TriggerAddr, TriggerShift, GroupAddr, EnableAddr, BitOf,
        Gicv3.Sgi, WithBits, WithoutBits;
      SetMmioBits32(GroupAddr(bases.dist, id), BitOf(id));
    }

    method EnableSpi(id: bv32)
      modifies this`mmio
      ensures mmio == Perform(hw, old(mmio), WriteFor(old(mmio), bases.dist, false, id, Enable))
    {
      hide Store, PriorityAddr, PriorityShift, TriggerAddr, TriggerShift, GroupAddr, EnableAddr, BitOf,
        Gicv3.Sgi, WithBits, WithoutBits;
      WriteMmio32(EnableAddr(bases.dist, id), BitOf(id));
    }

    method SetSpiRouting(id: bv32)
      modifies this`mmio
      ensures mmio == Route(hw, bases.dist, old(mmio), id)
    {
      hide Store;
      var offset := GICD_IROUTER + 8 * (id as bv64);
      WriteMmio32(Address(bases.dist, offset), 0);
      WriteMmio32(Address(bases.dist, offset + 4), 0);
    }

    /** Stores the base addresses, enables group 1 and wakes the redistributor. */
    method InitGic(dist: bv64, redist: bv64)
      modifies this`bases, this`mmio
      ensures bases == Gicv3(dist, redist)
      ensures mmio == InitWrites(hw, bases, old(mmio))
    {
      hide Store, PriorityAddr, PriorityShift, TriggerAddr, TriggerShift, GroupAddr, EnableAddr, BitOf,
        Gicv3.Sgi, WithBits, WithoutBits;
      bases := Gicv3(dist, redist);
      SetMmioBits32(Address(dist, GICD_CTLR), GRP1_BITS);
      ClearMmioBits32(Address(redist, GICR_WAKER), GICR_WAKER_PSLEEP);
    }
  }

  /** The writes of init_gic. */
  function InitWrites(hw: Gicv3, g: Gicv3, m: Mmio): Mmio {
    var ctlr, waker := Address(g.dist, GICD_CTLR), Address(g.redist, GICR_WAKER);
    var m1 := Store(hw, m, ctlr, WithBits(m.cells(ctlr), GRP1_BITS));
    Store(hw, m1, waker, WithoutBits(m1.cells(waker), GICR_WAKER_PSLEEP))
  }

  // ---------- The writes, in the architecture's layout ----------

  lemma InitAddresses(hw: Gicv3, g: Gicv3)
    ensures Address(g.dist, GICD_CTLR) == Address(g.dist, 0x000) && !IsSetEnable(hw, Address(g.dist, 0x000))
    ensures Address(g.redist, GICR_WAKER) == Address(g.redist, 0x014) && !IsSetEnable(hw, Address(g.redist, 0x014))
    ensures Address(g.dist, 0x000) != Address(g.redist, 0x014)
  {
  }

  lemma PlainStore(hw: Gicv3, m: Mmio, a: Address, v: bv32)
    requires !IsSetEnable(hw, a)
    ensures var m' := Store(hw, m, a, v);
      && m'.cells(a) == v && (forall b :: b != a ==> m'.cells(b) == m.cells(b))
      && m'.writes == m.writes + [Write(a, v)]
  {
    hide IsSetEnable;
  }

  lemma GroupBits(reg: bv32)
    ensures WithBits(reg, GRP1_BITS) == GroupsOn(reg)
  {
  }

  lemma AwakeBits(reg: bv32)
    ensures WithoutBits(reg, GICR_WAKER_PSLEEP) == Awake(reg)
  {
  }

  lemma TwoStores(hw: Gicv3, m: Mmio, a: Address, b: Address, v: bv32, w: bv32)
    requires !IsSetEnable(hw, a) && !IsSetEnable(hw, b) && a != b
    ensures var m' := Store(hw, Store(hw, m, a, v), b, w);
      && m'.cells(a) == v && m'.cells(b) == w && (forall c :: c != a && c != b ==> m'.cells(c) == m.cells(c))
      && m'.writes == m.writes + [Write(a, v), Write(b, w)]
    ensures Store(hw, m, a, v).cells(b) == m.cells(b)
  {
    hide IsSetEnable, Store;
    PlainStore(hw, m, a, v);
    PlainStore(hw, Store(hw, m, a, v), b, w);
  }

  function GroupsOn(reg: bv32): bv32 { reg | 6 }
  function Awake(reg: bv32): bv32 { reg & 0xFFFF_FFFD }

  /** init_gic sets bits 1 and 2, the two group-1 enables, of the distributor's
      control register at 0x000, clears bit 1, ProcessorSleep, of the
      redistributor's wake register at 0x014, and changes no other register. */
  lemma InitWritesAre(hw: Gicv3, g: Gicv3, m: Mmio)
    ensures var m', ctlr, waker := InitWrites(hw, g, m), Address(g.dist, 0x000), Address(g.redist, 0x014);
      && m'.cells(ctlr) == GroupsOn(m.cells(ctlr)) && m'.cells(waker) == Awake(m.cells(waker))
      && (forall a :: a != ctlr && a != waker ==> m'.cells(a) == m.cells(a))
      && m'.writes == m.writes + [Write(ctlr, GroupsOn(m.cells(ctlr))), Write(waker, Awake(m.cells(waker)))]
  {
    hide IsSetEnable, Store, WithBits, WithoutBits, GroupsOn, Awake;
    var ctlr, waker := Address(g.dist, 0x000), Address(g.redist, 0x014);
    InitAddresses(hw, g);
    GroupBits(m.cells(ctlr));
    AwakeBits(m.cells(waker));
    TwoStores(hw, m, ctlr, waker, GroupsOn(m.cells(ctlr)), Awake(m.cells(waker)));
  }

  ghost predicate OneWrite(m: Mmio, m': Mmio, a: Address) {
    |m'.writes| == |m.writes| + 1 && m.writes <= m'.writes && m'.writes[|m.writes|].address == a
  }

  lemma SettingWritesOne(hw: Gicv3, m: Mmio, frame: bv64, ppi: bool, id: bv32, s: Setting)
    ensures OneWrite(m, Perform(hw, m, WriteFor(m, frame, ppi, id, s)),
      match s
      case Trigger(_) => Address(frame, 0xC00 + (id / 16 * 4) as bv64)
      case Priority(_) => Address(frame, 0x400 + (id / 4 * 4) as bv64)
      case Group1 => Address(frame, 0x080 + (id / 32 * 4) as bv64)
      case Enable => Address(frame, 0x100 + (id / 32 * 4) as bv64))
  {
    hide PriorityAddr, TriggerAddr, GroupAddr, EnableAddr, PriorityShift, TriggerShift, BitOf, WithField,
      WithBits, IsSetEnable;
    PriorityAddress(frame, id);
    TriggerAddress(frame, id);
    GroupAddress(frame, id);
    EnableAddress(frame, id);
  }

  function RouterWord(dist: bv64, id: bv32, extra: bv64): Address {
    Address(dist, 0x6100 + 8 * (id as bv64) + extra)
  }

  lemma RouterWords(dist: bv64, id: bv32)
    ensures RouterAddr(dist, id) == RouterWord(dist, id, 0)
    ensures Address(dist, RouterAddr(dist, id).offset + 4) == RouterWord(dist, id, 4)
  {
  }

  lemma StoreLogs(hw: Gicv3, m: Mmio, a: Address, v: bv32)
    ensures Store(hw, m, a, v).writes == m.writes + [Write(a, v)]
  {
  }

  lemma RouteWritesAre(hw: Gicv3, dist: bv64, m: Mmio, id: bv32)
    ensures Route(hw, dist, m, id).writes ==
      m.writes + [Write(RouterWord(dist, id, 0), 0), Write(RouterWord(dist, id, 4), 0)]
  {
    hide Store, RouterWord, RouterAddr;
    RouterWords(dist, id);
    StoreLogs(hw, m, RouterWord(dist, id, 0), 0);
    StoreLogs(hw, Store(hw, m, RouterWord(dist, id, 0), 0), RouterWord(dist, id, 4), 0);
  }

  /** The registers that an SPI's setup writes, in order: trigger, priority,
      group, the two halves of routing register 0x6100 + 8 * id with zero, enable. */
  lemma SpiWritesAre(hw: Gicv3, g: Gicv3, m: Mmio, id: bv32, edge: bool)
    ensures var n, ws := |m.writes|, ConfigureSpi(hw, g, m, id, edge).writes;
      && |ws| == n + 6 && m.writes <= ws
      && ws[n].address == Address(g.dist, 0xC00 + (id / 16 * 4) as bv64)
      && ws[n + 1].address == Address(g.dist, 0x400 + (id / 4 * 4) as bv64)
      && ws[n + 2].address == Address(g.dist, 0x080 + (id / 32 * 4) as bv64)
      && ws[n + 3] == Write(RouterWord(g.dist, id, 0), 0)
      && ws[n + 4] == Write(RouterWord(g.dist, id, 4), 0)
      && ws[n + 5].address == Address(g.dist, 0x100 + (id / 32 * 4) as bv64)
  {
    hide WriteFor, Route, Perform, RouterWord;
    var m1 := Perform(hw, m, WriteFor(m, g.dist, false, id, Trigger(ModeOf(edge))));
    var m2 := Perform(hw, m1, WriteFor(m1, g.dist, false, id, Priority(0)));
    var m3 := Perform(hw, m2, WriteFor(m2, g.dist, false, id, Group1));
    var m4 := Route(hw, g.dist, m3, id);
    SettingWritesOne(hw, m, g.dist, false, id, Trigger(ModeOf(edge)));
    SettingWritesOne(hw, m1, g.dist, false, id, Priority(0));
    SettingWritesOne(hw, m2, g.dist, false, id, Group1);
    RouteWritesAre(hw, g.dist, m3, id);
    SettingWritesOne(hw, m4, g.dist, false, id, Enable);
  }

  /** The registers that a PPI's setup writes, in the SGI frame: trigger, priority, group, enable. */
  lemma PpiWritesAre(hw: Gicv3, g: Gicv3, m: Mmio, id: bv32, edge: bool)
    ensures var n, ws, frame := |m.writes|, ConfigurePpi(hw, g, m, id, edge).writes, g.redist + 0x10000;
      && |ws| == n + 4 && m.writes <= ws
      && ws[n].address == Address(frame, 0xC00 + (id / 16 * 4) as bv64)
      && ws[n + 1].address == Address(frame, 0x400 + (id / 4 * 4) as bv64)
      && ws[n + 2].address == Address(frame, 0x080 + (id / 32 * 4) as bv64)
      && ws[n + 3].address == Address(frame, 0x100 + (id / 32 * 4) as bv64)
  {
    hide WriteFor, Perform;
    var m1 := Perform(hw, m, WriteFor(m, g.Sgi(), true, id, Trigger(ModeOf(edge))));
    var m2 := Perform(hw, m1, WriteFor(m1, g.Sgi(), true, id, Priority(0)));
    var m3 := Perform(hw, m2, WriteFor(m2, g.Sgi(), true, id, Group1));
    SettingWritesOne(hw, m, g.Sgi(), true, id, Trigger(ModeOf(edge)));
    SettingWritesOne(hw, m1, g.Sgi(), true, id, Priority(0));
    SettingWritesOne(hw, m2, g.Sgi(), true, id, Group1);
    SettingWritesOne(hw, m3, g.Sgi(), true, id, Enable);
  }
}

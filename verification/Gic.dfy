/** GICv3 registers: read-modify-write setters on packed fields, against a map
    from interrupt to configuration. */
module Gic {
  import Bits

  // Register offsets, the same in the distributor and in the SGI frame of the redistributor.
  const GICD_CTLR: bv64 := 0x000
  const GICR_WAKER: bv64 := 0x014
  const IGROUPR: bv64 := 0x080
  const ISENABLER: bv64 := 0x100
  const IPRIORITYR: bv64 := 0x400
  const ICFGR: bv64 := 0xC00
  const GICD_IROUTER: bv64 := 0x6100
  const GICR_SGI_BASE: bv64 := 0x10000

  const GRP1_BITS: bv32 := 6
  const GICR_WAKER_PSLEEP: bv32 := 2
  const FIRST_SPI: bv32 := 32
  const ID_LIMIT: bv32 := 1020

  /** A register: the base of its 64 KiB frame and its offset there. */
  datatype Address = Address(base: bv64, offset: bv64)

  /** The base addresses of the distributor and of the redistributor. */
  datatype Gicv3 = Gicv3(dist: bv64, redist: bv64) {
    function Sgi(): bv64 {
      redist + GICR_SGI_BASE
    }

    /** The frame that holds an interrupt's configuration. */
    function FrameOf(id: bv32): bv64 {
      if id < FIRST_SPI then Sgi() else dist
    }

    /** The distributor, redistributor and SGI frames are different frames. */
    predicate Apart() {
      dist != redist && dist != Sgi() && redist != Sgi()
    }
  }

  datatype Write = Write(address: Address, value: bv32)

  /** Device registers by address, and the writes made so far. */
  datatype Mmio = Mmio(cells: Address -> bv32, writes: seq<Write>)

  predicate IsSetEnable(hw: Gicv3, a: Address) {
    || (a.base == hw.dist && ISENABLER <= a.offset < ISENABLER + 0x80)
    || a == Address(hw.Sgi(), ISENABLER)
  }

  /** A register write. An ISENABLER register sets the bits that are one and keeps the others. */
  function Store(hw: Gicv3, m: Mmio, a: Address, v: bv32): Mmio {
    var stored := if IsSetEnable(hw, a) then WithBits(m.cells(a), v) else v;
    Mmio(b => if b == a then stored else m.cells(b), m.writes + [Write(a, v)])
  }

  function PriorityAddr(frame: bv64, id: bv32): Address { Address(frame, IPRIORITYR + (id / 4 * 4) as bv64) }
  function PriorityShift(id: bv32): (s: bv32) ensures Bits.ByteShift(s) { id % 4 * 8 }
  function TriggerAddr(frame: bv64, id: bv32): Address { Address(frame, ICFGR + (id / 16 * 4) as bv64) }
  function TriggerShift(id: bv32): (s: bv32) ensures Bits.PairShift(s) { id % 16 * 2 }
  function GroupAddr(frame: bv64, id: bv32): Address { Address(frame, IGROUPR + (id / 32 * 4) as bv64) }
  function EnableAddr(frame: bv64, id: bv32): Address { Address(frame, ISENABLER + (id / 32 * 4) as bv64) }
  function BitShift(id: bv32): (s: bv32) ensures s <= 31 { id % 32 }
  function BitOf(id: bv32): bv32 { 1 << BitShift(id) }

  /** What an interrupt is configured to do. */
  datatype IrqConfig = IrqConfig(priority: bv32, trigger: bv32, group1: bool, enabled: bool)

  const EDGE: bv32 := 2
  const LEVEL: bv32 := 0

  function ModeOf(edge: bool): bv32 {
    if edge then EDGE else LEVEL
  }

  function ShiftTo(v: bv32, s: bv32): bv32
    requires s <= 31
  {
    v << s
  }

  function WithBits(reg: bv32, bits: bv32): bv32 { reg | bits }
  function WithoutBits(reg: bv32, bits: bv32): bv32 { reg & !bits }

  /** The field of `reg` that starts at bit `s`. */
  function Field(reg: bv32, mask: bv32, s: bv32): bv32
    requires s <= 31
  {
    (reg >> s) & mask
  }

  /** `reg` with that field set to `v`. */
  function WithField(reg: bv32, mask: bv32, s: bv32, v: bv32): bv32
    requires s <= 31
  {
    WithBits(WithoutBits(reg, ShiftTo(mask, s)), ShiftTo(v, s))
  }

  // ---------- The architecture's layout ----------

  /** Byte `k` of a word, byte 0 the least significant. */
  function ByteOf(w: bv32, k: bv32): bv32 {
    if k == 0 then w & 0xFF
    else if k == 1 then (w >> 8) & 0xFF
    else if k == 2 then (w >> 16) & 0xFF
    else (w >> 24) & 0xFF
  }

  function BitsFrom(w: bv32, at: bv32): bv32 {
    if at <= 31 then w >> at else 0
  }

  /** The configuration of interrupt `id` that the registers of the GIC at `hw`
      hold, read as the GIC architecture specification lays them out: SGIs and
      PPIs in the frame 64 KiB above the redistributor, SPIs in the distributor;
      the priority in byte id % 4 of word id / 4 from 0x400; the trigger in two
      bits of word id / 16 from 0xC00, edge being 0b10; the group and the enable
      in bit id % 32 of word id / 32 from 0x080 and 0x100. */
  function Decode(hw: Gicv3, m: Mmio, id: bv32): IrqConfig {
    var frame := if id < 32 then hw.redist + 0x10000 else hw.dist;
    IrqConfig(
      ByteOf(m.cells(Address(frame, 0x400 + (id / 4 * 4) as bv64)), id % 4),
      BitsFrom(m.cells(Address(frame, 0xC00 + (id / 16 * 4) as bv64)), 2 * (id % 16)) & 3,
      BitsFrom(m.cells(Address(frame, 0x080 + (id / 32 * 4) as bv64)), id % 32) & 1 == 1,
      BitsFrom(m.cells(Address(frame, 0x100 + (id / 32 * 4) as bv64)), id % 32) & 1 == 1)
  }

  /** The same fields, at the addresses and shifts that the driver computes. */
  function FieldsOf(hw: Gicv3, m: Mmio, id: bv32): IrqConfig {
    var f := hw.FrameOf(id);
    IrqConfig(
      Field(m.cells(PriorityAddr(f, id)), 0xFF, PriorityShift(id)),
      Field(m.cells(TriggerAddr(f, id)), 3, TriggerShift(id)),
      Field(m.cells(GroupAddr(f, id)), 1, BitShift(id)) == 1,
      Field(m.cells(EnableAddr(f, id)), 1, BitShift(id)) == 1)
  }

  lemma PriorityAddress(f: bv64, id: bv32)
    ensures PriorityAddr(f, id) == Address(f, 0x400 + (id / 4 * 4) as bv64)
  {
  }

  lemma TriggerAddress(f: bv64, id: bv32)
    ensures TriggerAddr(f, id) == Address(f, 0xC00 + (id / 16 * 4) as bv64)
  {
  }

  lemma GroupAddress(f: bv64, id: bv32)
    ensures GroupAddr(f, id) == Address(f, 0x080 + (id / 32 * 4) as bv64)
  {
  }

  lemma EnableAddress(f: bv64, id: bv32)
    ensures EnableAddr(f, id) == Address(f, 0x100 + (id / 32 * 4) as bv64)
  {
  }

  lemma PriorityIsByte(w: bv32, id: bv32)
    ensures Field(w, 0xFF, PriorityShift(id)) == ByteOf(w, id % 4)
  {
  }

  lemma TriggerIsPair(w: bv32, id: bv32)
    ensures Field(w, 3, TriggerShift(id)) == BitsFrom(w, 2 * (id % 16)) & 3
  {
  }

  lemma BitIsBit(w: bv32, id: bv32)
    ensures Field(w, 1, BitShift(id)) == BitsFrom(w, id % 32) & 1
  {
  }

  lemma FrameIsArchitectural(hw: Gicv3, id: bv32)
    ensures hw.FrameOf(id) == if id < 32 then hw.redist + 0x10000 else hw.dist
  {
  }

  /** The driver's addresses and shifts are the architecture's. */
  lemma LayoutIsArchitectural(hw: Gicv3, m: Mmio, id: bv32)
    ensures Decode(hw, m, id) == FieldsOf(hw, m, id)
  {
    hide Field, ByteOf, BitsFrom, PriorityAddr, TriggerAddr, GroupAddr, EnableAddr, PriorityShift, TriggerShift,
      BitShift, Gicv3.FrameOf;
    var f := hw.FrameOf(id);
    FrameIsArchitectural(hw, id);
    PriorityAddress(f, id);
    TriggerAddress(f, id);
    GroupAddress(f, id);
    EnableAddress(f, id);
    PriorityIsByte(m.cells(PriorityAddr(f, id)), id);
    TriggerIsPair(m.cells(TriggerAddr(f, id)), id);
    BitIsBit(m.cells(GroupAddr(f, id)), id);
    BitIsBit(m.cells(EnableAddr(f, id)), id);
  }

  // ---------- The setters as register updates ----------

  datatype Setting = Priority(prio: bv32) | Trigger(mode: bv32) | Group1 | Enable

  predicate ValidSetting(s: Setting) {
    match s
    case Priority(p) => p <= 0xFF
    case Trigger(t) => t == EDGE || t == LEVEL
    case _ => true
  }

  /** The abstract effect of a setting. */
  function Configure(c: IrqConfig, s: Setting): IrqConfig {
    match s
    case Priority(p) => c.(priority := p)
    case Trigger(t) => c.(trigger := t)
    case Group1 => c.(group1 := true)
    case Enable => c.(enabled := true)
  }

  /** The register write that makes a setting for `id` in a frame. A PPI is
      enabled by a read-modify-write, an SPI by writing its bit alone. */
  function WriteFor(m: Mmio, frame: bv64, ppi: bool, id: bv32, s: Setting): Write {
    match s
    case Priority(p) =>
      var a := PriorityAddr(frame, id);
      Write(a, WithField(m.cells(a), 0xFF, PriorityShift(id), p))
    case Trigger(t) =>
      var a := TriggerAddr(frame, id);
      Write(a, WithField(m.cells(a), 3, TriggerShift(id), t))
    case Group1 =>
      var a := GroupAddr(frame, id);
      Write(a, WithBits(m.cells(a), BitOf(id)))
    case Enable =>
      var a := EnableAddr(frame, id);
      Write(a, if ppi then WithBits(m.cells(a), BitOf(id)) else BitOf(id))
  }

  /** A setter called on a driver that believes the GIC is at `g`. */
  function Set(hw: Gicv3, g: Gicv3, m: Mmio, id: bv32, s: Setting): Mmio {
    var w := WriteFor(m, g.FrameOf(id), id < FIRST_SPI, id, s);
    Store(hw, m, w.address, w.value)
  }

  // ---------- Bit fields ----------

  lemma PriorityField(reg: bv32, s: bv32, t: bv32, prio: bv32)
    requires Bits.ByteShift(s) && Bits.ByteShift(t) && prio <= 0xFF
    ensures Field(WithField(reg, 0xFF, s, prio), 0xFF, t) == if s == t then prio else Field(reg, 0xFF, t)
  {
    hide Bits.ByteShift;
    Bits.ByteSet(reg, s, t, prio);
  }

  lemma TriggerField(reg: bv32, s: bv32, t: bv32, mode: bv32)
    requires Bits.PairShift(s) && Bits.PairShift(t) && mode <= 3
    ensures Field(WithField(reg, 3, s, mode), 3, t) == if s == t then mode else Field(reg, 3, t)
  {
    hide Bits.PairShift;
    Bits.PairSet(reg, s, t, mode);
  }

  lemma BitField(reg: bv32, i: bv32, j: bv32)
    ensures Field(WithBits(reg, BitOf(i)), 1, BitShift(j)) ==
            if BitShift(i) == BitShift(j) then 1 else Field(reg, 1, BitShift(j))
  {
    hide BitShift;
    Bits.BitSet(reg, BitShift(i), BitShift(j));
  }

  lemma OrIdempotent(a: bv32, b: bv32)
    ensures WithBits(a, WithBits(a, b)) == WithBits(a, b)
  {
    calc {
      WithBits(a, WithBits(a, b));
      WithBits(a, a | b);
      a | (a | b);
      { Bits.OrTwice(a, b); }
      a | b;
    }
  }

  /** Registers of different kinds are different registers. */
  lemma KindsApart(f: bv64, g: bv64, i: bv32, j: bv32)
    requires i < ID_LIMIT && j < ID_LIMIT
    ensures PriorityAddr(f, i) != TriggerAddr(g, j)
    ensures PriorityAddr(f, i) != GroupAddr(g, j)
    ensures PriorityAddr(f, i) != EnableAddr(g, j)
    ensures TriggerAddr(f, i) != GroupAddr(g, j)
    ensures TriggerAddr(f, i) != EnableAddr(g, j)
    ensures GroupAddr(f, i) != EnableAddr(g, j)
  {
  }

  // Different interrupts have different fields: in different registers, or at different shifts.

  lemma PrioritiesApart(hw: Gicv3, i: bv32, j: bv32)
    requires hw.dist != hw.Sgi() && i != j
    ensures PriorityAddr(hw.FrameOf(i), i) == PriorityAddr(hw.FrameOf(j), j) ==> PriorityShift(i) != PriorityShift(j)
  {
    Bits.ByteIndex(IPRIORITYR, i, j);
  }

  lemma TriggersApart(hw: Gicv3, i: bv32, j: bv32)
    requires hw.dist != hw.Sgi() && i != j
    ensures TriggerAddr(hw.FrameOf(i), i) == TriggerAddr(hw.FrameOf(j), j) ==> TriggerShift(i) != TriggerShift(j)
  {
    Bits.PairIndex(ICFGR, i, j);
  }

  lemma GroupsApart(hw: Gicv3, i: bv32, j: bv32)
    requires hw.dist != hw.Sgi() && i != j
    ensures GroupAddr(hw.FrameOf(i), i) == GroupAddr(hw.FrameOf(j), j) ==> BitShift(i) != BitShift(j)
  {
    Bits.BitIndex(IGROUPR, i, j);
  }

  lemma EnablesApart(hw: Gicv3, i: bv32, j: bv32)
    requires hw.dist != hw.Sgi() && i != j
    ensures EnableAddr(hw.FrameOf(i), i) == EnableAddr(hw.FrameOf(j), j) ==> BitShift(i) != BitShift(j)
  {
    Bits.BitIndex(ISENABLER, i, j);
  }

  lemma OnlyEnableSets(hw: Gicv3, i: bv32)
    requires hw.dist != hw.Sgi() && i < ID_LIMIT
    ensures IsSetEnable(hw, EnableAddr(hw.FrameOf(i), i))
    ensures !IsSetEnable(hw, PriorityAddr(hw.FrameOf(i), i))
    ensures !IsSetEnable(hw, TriggerAddr(hw.FrameOf(i), i))
    ensures !IsSetEnable(hw, GroupAddr(hw.FrameOf(i), i))
  {
  }

  // ---------- Refinement of the configuration map ----------

  /** A setter other than enable stores its word in one register and changes no other. */
  lemma SettingCell(hw: Gicv3, m: Mmio, i: bv32, s: Setting)
    requires hw.dist != hw.Sgi() && i < ID_LIMIT && !s.Enable?
    ensures var w := WriteFor(m, hw.FrameOf(i), i < FIRST_SPI, i, s);
      var cells := Set(hw, hw, m, i, s).cells;
      cells(w.address) == w.value && forall b :: b != w.address ==> cells(b) == m.cells(b)
  {
    hide PriorityAddr, TriggerAddr, GroupAddr, EnableAddr, BitOf, WithField, WithBits, IsSetEnable, Gicv3.FrameOf;
    OnlyEnableSets(hw, i);
  }

  lemma SetPriorityRefines(hw: Gicv3, m: Mmio, i: bv32, p: bv32, j: bv32)
    requires hw.dist != hw.Sgi() && i < ID_LIMIT && j < ID_LIMIT && p <= 0xFF
    ensures FieldsOf(hw, Set(hw, hw, m, i, Priority(p)), j) ==
            if i == j then FieldsOf(hw, m, j).(priority := p) else FieldsOf(hw, m, j)
  {
    var f, g := hw.FrameOf(i), hw.FrameOf(j);
    hide Field, WithField, PriorityShift, TriggerShift, BitShift, IsSetEnable, Set, BitOf, WithBits, Gicv3.FrameOf;
    hide PriorityAddr, TriggerAddr, GroupAddr, EnableAddr;
    KindsApart(f, g, i, j);
    KindsApart(g, f, j, i);
    SettingCell(hw, m, i, Priority(p));
    var reg := m.cells(PriorityAddr(f, i));
    PriorityField(reg, PriorityShift(i), PriorityShift(j), p);
    if i != j {
      PrioritiesApart(hw, i, j);
    }
  }

  lemma SetTriggerRefines(hw: Gicv3, m: Mmio, i: bv32, mode: bv32, j: bv32)
    requires hw.dist != hw.Sgi() && i < ID_LIMIT && j < ID_LIMIT && mode <= 3
    ensures FieldsOf(hw, Set(hw, hw, m, i, Trigger(mode)), j) ==
            if i == j then FieldsOf(hw, m, j).(trigger := mode) else FieldsOf(hw, m, j)
  {
    var f, g := hw.FrameOf(i), hw.FrameOf(j);
    hide Field, WithField, PriorityShift, TriggerShift, BitShift, IsSetEnable, Set, BitOf, WithBits, Gicv3.FrameOf;
    hide PriorityAddr, TriggerAddr, GroupAddr, EnableAddr;
    KindsApart(f, g, i, j);
    KindsApart(g, f, j, i);
    SettingCell(hw, m, i, Trigger(mode));
    var reg := m.cells(TriggerAddr(f, i));
    TriggerField(reg, TriggerShift(i), TriggerShift(j), mode);
    if i != j {
      TriggersApart(hw, i, j);
    }
  }

  lemma SetGroupRefines(hw: Gicv3, m: Mmio, i: bv32, j: bv32)
    requires hw.dist != hw.Sgi() && i < ID_LIMIT && j < ID_LIMIT
    ensures FieldsOf(hw, Set(hw, hw, m, i, Group1), j) ==
            if i == j then FieldsOf(hw, m, j).(group1 := true) else FieldsOf(hw, m, j)
  {
    var f, g := hw.FrameOf(i), hw.FrameOf(j);
    hide Field, WithField, PriorityShift, TriggerShift, BitShift, IsSetEnable, Set, BitOf, WithBits, Gicv3.FrameOf;
    hide PriorityAddr, TriggerAddr, GroupAddr, EnableAddr;
    KindsApart(f, g, i, j);
    KindsApart(g, f, j, i);
    SettingCell(hw, m, i, Group1);
    var reg := m.cells(GroupAddr(f, i));
    BitField(reg, i, j);
    if i != j {
      GroupsApart(hw, i, j);
    }
  }

  /** Enabling sets the interrupt's bit of its ISENABLER register and nothing
      else, whether the bit is written alone or read and written back. */
  lemma EnableCell(hw: Gicv3, m: Mmio, i: bv32)
    requires hw.dist != hw.Sgi() && i < ID_LIMIT
    ensures var a := EnableAddr(hw.FrameOf(i), i);
      var cells := Set(hw, hw, m, i, Enable).cells;
      cells(a) == WithBits(m.cells(a), BitOf(i)) && forall b :: b != a ==> cells(b) == m.cells(b)
  {
    hide BitOf, WithBits, EnableAddr, IsSetEnable, Gicv3.FrameOf;
    OnlyEnableSets(hw, i);
    OrIdempotent(m.cells(EnableAddr(hw.FrameOf(i), i)), BitOf(i));
  }

  lemma SetEnableRefines(hw: Gicv3, m: Mmio, i: bv32, j: bv32)
    requires hw.dist != hw.Sgi() && i < ID_LIMIT && j < ID_LIMIT
    ensures FieldsOf(hw, Set(hw, hw, m, i, Enable), j) ==
            if i == j then FieldsOf(hw, m, j).(enabled := true) else FieldsOf(hw, m, j)
  {
    var f, g := hw.FrameOf(i), hw.FrameOf(j);
    hide Field, PriorityShift, TriggerShift, BitShift, IsSetEnable, Set;
    hide TriggerAddr, GroupAddr, PriorityAddr, EnableAddr, BitOf, WithBits, Gicv3.FrameOf;
    KindsApart(f, g, i, j);
    KindsApart(g, f, j, i);
    EnableCell(hw, m, i);
    BitField(m.cells(EnableAddr(f, i)), i, j);
    if i != j {
      EnablesApart(hw, i, j);
    }
  }

  /** A setting changes the configuration of its own interrupt as the abstract
      setting says, and of no other interrupt. */
  lemma SetRefines(hw: Gicv3, m: Mmio, i: bv32, s: Setting, j: bv32)
    requires hw.dist != hw.Sgi() && i < ID_LIMIT && j < ID_LIMIT && ValidSetting(s)
    ensures Decode(hw, Set(hw, hw, m, i, s), j) ==
            if i == j then Configure(Decode(hw, m, j), s) else Decode(hw, m, j)
  {
    hide Decode, FieldsOf, Set;
    LayoutIsArchitectural(hw, m, j);
    LayoutIsArchitectural(hw, Set(hw, hw, m, i, s), j);
    match s
    case Priority(p) => SetPriorityRefines(hw, m, i, p, j);
    case Trigger(t) => SetTriggerRefines(hw, m, i, t, j);
    case Group1 => SetGroupRefines(hw, m, i, j);
    case Enable => SetEnableRefines(hw, m, i, j);
  }

  datatype Call = Call(id: bv32, setting: Setting)

  function SetAll(hw: Gicv3, m: Mmio, calls: seq<Call>): Mmio
    decreases |calls|
  {
    if calls == [] then m
    else SetAll(hw, Set(hw, hw, m, calls[0].id, calls[0].setting), calls[1..])
  }

  /** The configuration of interrupt `j` after the calls, applied abstractly. */
  function ConfigureAll(c: IrqConfig, j: bv32, calls: seq<Call>): IrqConfig
    decreases |calls|
  {
    if calls == [] then c
    else ConfigureAll(if calls[0].id == j then Configure(c, calls[0].setting) else c, j, calls[1..])
  }

  /** After any sequence of setter calls over valid ids the registers decode to
      exactly the map obtained by applying the calls abstractly. */
  lemma {:induction false} SetAllRefines(hw: Gicv3, m: Mmio, calls: seq<Call>, j: bv32)
    requires hw.dist != hw.Sgi() && j < ID_LIMIT
    requires forall k :: 0 <= k < |calls| ==> calls[k].id < ID_LIMIT && ValidSetting(calls[k].setting)
    ensures Decode(hw, SetAll(hw, m, calls), j) == ConfigureAll(Decode(hw, m, j), j, calls)
    decreases |calls|
  {
    hide Decode, Set, Configure;
    if calls != [] {
      SetRefines(hw, m, calls[0].id, calls[0].setting, j);
      SetAllRefines(hw, Set(hw, hw, m, calls[0].id, calls[0].setting), calls[1..], j);
    }
  }
}

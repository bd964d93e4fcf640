/** What the driver setups read from a device's properties, in terms of the
    properties: base addresses, interrupt specifiers and clocks. */
module Decoding {
  import opened Bytes
  import opened DeviceTable
  import opened Fdt
  import opened Lookup
  import opened Readers
  import opened Cells
  import opened Probe
  import opened Gic
  import opened GicDriver
  import opened Setup

  /** A device of a parsed table. */
  ghost predicate Readable(t: Tables<nat>, blob: seq<Byte>, i: nat) {
    Ready(t, i) && ValuesInside(blob, t)
  }

  // ---------- Addresses ----------

  /** Device `i` has a visible "reg" at `at`, and its parent gives addresses of `n` cells. */
  ghost predicate HasReg(t: Tables<nat>, blob: seq<Byte>, i: nat, at: nat, n: nat)
    requires Ready(t, i)
  {
    var reg := Find<nat>(t.devices[i], "reg");
    && reg.Some? && reg.value.value == Some(at)
    && CellCount(t, blob, t.devices[i].parent, "#address-cells", 2, n)
  }

  /** An entry of a "reg" list: an address and a size, of any numbers of cells. */
  datatype RegEntry = RegEntry(address: nat, size: nat)

  function EntryBytes(e: RegEntry, addrCells: nat, sizeCells: nat): seq<Byte> {
    BytesOf(e.address, 4 * addrCells) + BytesOf(e.size, 4 * sizeCells)
  }

  lemma EntriesAt(blob: seq<Byte>, at: nat, next: nat, a: nat, s: nat, e0: RegEntry, e1: RegEntry, rest: seq<Byte>)
    requires HasAt(blob, at, EntryBytes(e0, a, s) + (EntryBytes(e1, a, s) + rest)) && next == at + 4 * (a + s)
    ensures HasAt(blob, at, BytesOf(e0.address, 4 * a)) && HasAt(blob, next, BytesOf(e1.address, 4 * a))
  {
    hide HasAt, BytesOf;
    var a0, s0 := BytesOf(e0.address, 4 * a), BytesOf(e0.size, 4 * s);
    var a1, s1 := BytesOf(e1.address, 4 * a), BytesOf(e1.size, 4 * s);
    HasAtConcat(blob, at, a0 + s0, (a1 + s1) + rest);
    HasAtConcat(blob, at, a0, s0);
    HasAtConcat(blob, next, a1 + s1, rest);
    HasAtConcat(blob, next, a1, s1);
  }

  /** GIC setup: for all cell counts whose sum does not overflow and every "reg"
      of at least two entries, the first two entries' addresses, modulo 2^64. */
  lemma GicBasesDecode(t: Tables<nat>, blob: seq<Byte>, i: nat, at: nat, a: nat, s: nat,
          e0: RegEntry, e1: RegEntry, rest: seq<Byte>)
    requires Readable(t, blob, i) && HasReg(t, blob, i, at, a)
    requires CellCount(t, blob, t.devices[i].parent, "#size-cells", 1, s) && a + s < 0x1_0000_0000
    requires HasAt(blob, at, EntryBytes(e0, a, s) + (EntryBytes(e1, a, s) + rest))
    requires e0.address < Pow256(4 * a) && e1.address < Pow256(4 * a)
    ensures GicBases(t, blob, i) ==
      Ok(Some(Gicv3((e0.address % 0x1_0000_0000_0000_0000) as bv64, (e1.address % 0x1_0000_0000_0000_0000) as bv64)))
  {
    hide ParentCells, CellCount, Find, HasAt, Pow256, BytesOf, DecodeCells, ValuesInside, EntryBytes;
    ParentCellsAre(t, blob, t.devices[i].parent, a, s);
    var next := at + 4 * (a + s);
    EntriesAt(blob, at, next, a, s, e0, e1, rest);
    EntryDecodes(blob, at, a, 4 * a, e0.address);
    EntryDecodes(blob, next, a, 4 * a, e1.address);
  }

  /** ... a GIC without a visible "reg" is left alone ... */
  lemma GicWithoutReg(t: Tables<nat>, blob: seq<Byte>, hw: Gicv3, i: nat, s: Soc)
    requires Readable(t, blob, i) && Find<nat>(t.devices[i], "reg") == None
    ensures RunSetup(t, blob, hw, SetupCall(i, GicV3), s) == Ok(s)
  {
    hide ParentCells, CellCount, ValuesInside, InitWrites;
    ParentCellsMeaning(t, blob, t.devices[i].parent);
  }

  /** ... and cell counts whose sum overflows stop the kernel after the first address. */
  lemma GicCellsOverflow(t: Tables<nat>, blob: seq<Byte>, i: nat, at: nat, a: nat, s: nat, address: nat)
    requires Readable(t, blob, i) && RegStarts(t, blob, i, at, a, address)
    requires CellCount(t, blob, t.devices[i].parent, "#size-cells", 1, s) && a + s >= 0x1_0000_0000
    ensures GicBases(t, blob, i) == Panic
  {
    hide ParentCells, CellCount, Find, HasAt, Pow256, BytesOf, DecodeCells, AddrWord, ValuesInside;
    ParentCellsAre(t, blob, t.devices[i].parent, a, s);
    EntryDecodes(blob, at, a, 4 * a, address);
  }

  // ---------- Interrupt specifiers ----------

  predicate AreCells(words: seq<nat>) {
    forall k :: 0 <= k < |words| ==> words[k] < U32_LIMIT
  }

  function CellsBytes(words: seq<nat>): (bs: seq<Byte>)
    requires AreCells(words)
    ensures |bs| == 4 * |words|
  {
    if words == [] then [] else CellBytes(words[0]) + CellsBytes(words[1..])
  }

  lemma {:induction false} CellsReadBack(blob: seq<Byte>, at: nat, words: seq<nat>, k: nat)
    requires AreCells(words) && k < |words| && HasAt(blob, at, CellsBytes(words))
    ensures at + 4 * |words| <= |blob| && ReadCell(blob, at + 4 * k) == words[k]
    decreases |words|
  {
    hide HasAt, ReadCell, CellBytes;
    HasAtIsSlice(blob, at, CellsBytes(words));
    CellThen(blob, at, words[0], CellsBytes(words[1..]));
    if k > 0 {
      CellsReadBack(blob, at + 4, words[1..], k - 1);
    }
  }

  /** `words` with zero cells up to four. */
  function Padded4(words: seq<nat>): (r: seq<nat>)
    requires |words| <= 4
    ensures |r| == 4
  {
    words + seq(4 - |words|, _ => 0)
  }

  lemma InfoIs(blob: seq<Byte>, at: nat, words: seq<nat>)
    requires |words| <= 4 && (words != [] ==> at + 4 * |words| <= |blob|)
    requires forall k :: 0 <= k < |words| ==> ReadCell(blob, at + 4 * k) == words[k]
    ensures InterruptInfo(blob, at, |words|) == Ok(Padded4(words))
  {
    hide ReadCell;
    var info := InterruptInfo(blob, at, |words|).value;
    assert forall k :: 0 <= k < 4 ==> info[k] == Padded4(words)[k];
    assert info == Padded4(words);
  }

  /** The interrupt parent of device `i` is `d`, or it has none. */
  ghost predicate InterruptParentOf(t: Tables<nat>, blob: seq<Byte>, i: nat, d: Option<nat>)
    requires Readable(t, blob, i)
  {
    var path := Path(t, t.devices[i].parent);
    (d == None && NoneOnPath(t, path)) || exists k :: ResolvesAt(t, blob, path, k, d)
  }

  lemma InterruptParentOfIs(t: Tables<nat>, blob: seq<Byte>, i: nat, d: Option<nat>)
    requires Readable(t, blob, i) && InterruptParentOf(t, blob, i, d)
    ensures InterruptParent(t, blob, t.devices[i].parent) == Ok(d)
  {
    hide ValuesInside, InterruptParent, Path, NamesDevice, HasInterruptParent, ParentPhandle;
    var up := t.devices[i].parent;
    InterruptParentMeaning(t, blob, up);
    if k :| ResolvesAt(t, blob, Path(t, up), k, d) {
      InterruptParentIs(t, blob, up, k, d);
    }
  }

  /** The property's first cell. */
  ghost predicate CellAt(blob: seq<Byte>, p: Property<nat>, w: nat) {
    p.value.Some? && p.value.value + 4 <= |blob| && w == ReadCell(blob, p.value.value)
  }

  /** Specifiers for interrupt controller `d` have `n` cells: three by default. */
  ghost predicate SpecifierCells(t: Tables<nat>, blob: seq<Byte>, d: nat, n: nat)
    requires Ready(t, d)
  {
    match Find<nat>(t.devices[d], "#interrupt-cells")
    case None => n == 3
    case Some(p) => CellAt(blob, p, n)
  }

  /** Device `i` has an "interrupts" list at `at` of specifiers of `n` cells for
      interrupt parent `d`; the first, or second, specifier starts with `words`,
      which are as many of its cells as the setups keep. */
  ghost predicate HasSpecifier(t: Tables<nat>, blob: seq<Byte>, i: nat, second: bool, at: nat, d: nat, n: nat,
          words: seq<nat>)
    requires Readable(t, blob, i)
  {
    var p := Find<nat>(t.devices[i], "interrupts");
    && p.Some? && p.value.value == Some(at)
    && d < t.deviceCount && InterruptParentOf(t, blob, i, Some(d)) && SpecifierCells(t, blob, d, n)
    && |words| == (if n < 4 then n else 4) && AreCells(words)
    && HasAt(blob, if second then at + 4 * n else at, CellsBytes(words))
  }

  /** The setups read the specifier that the device has. */
  lemma SpecifierReadsBack(t: Tables<nat>, blob: seq<Byte>, i: nat, second: bool, at: nat, d: nat, n: nat,
          words: seq<nat>)
    requires Readable(t, blob, i) && HasSpecifier(t, blob, i, second, at, d, n, words)
    ensures Specifier(t, blob, i, second) == Ok(Some(Padded4(words)))
  {
    hide Find, InterruptParent, InterruptParentOf, HasAt, CellsBytes, ReadCell, Linked, ValuesInside, InterruptInfo;
    InterruptParentOfIs(t, blob, i, Some(d));
    var from := if second then at + 4 * n else at;
    if words != [] {
      CellsReadBack(blob, from, words, 0);
    }
    forall k | 0 <= k < |words| ensures ReadCell(blob, from + 4 * k) == words[k] {
      CellsReadBack(blob, from, words, k);
    }
    InfoIs(blob, from, words);
  }

  /** A UART's first specifier: type 0 is an SPI and configures interrupt 32 +
      number, edge-triggered exactly when a flag bit 0 or 1 is set, and stops the
      kernel when the sum overflows; any other type configures nothing. */
  lemma UartTarget(t: Tables<nat>, blob: seq<Byte>, i: nat, at: nat, d: nat, n: nat, words: seq<nat>)
    requires Readable(t, blob, i) && HasSpecifier(t, blob, i, false, at, d, n, words)
    ensures var v := Padded4(words);
      Target(t, blob, SetupCall(i, Pl011)) ==
        if v[0] != 0 then Ok(None)
        else if 32 + v[1] >= 0x1_0000_0000 then Panic
        else Ok(Some(((32 + v[1]) as bv32, v[2] % 4 != 0)))
  {
    hide HasSpecifier, Specifier, Linked, ValuesInside;
    SpecifierReadsBack(t, blob, i, false, at, d, n, words);
  }

  lemma PpiWord(n: nat)
    requires n < U32_LIMIT
    ensures IdWord(n) < FIRST_SPI <==> n < 32
  {
  }

  /** A timer's second specifier: type 1 is a PPI and configures interrupt 16 +
      number, and stops the kernel for numbers from 16 up; any other type
      configures nothing. */
  lemma TimerTarget(t: Tables<nat>, blob: seq<Byte>, i: nat, at: nat, d: nat, n: nat, words: seq<nat>)
    requires Readable(t, blob, i) && HasSpecifier(t, blob, i, true, at, d, n, words)
    ensures var v := Padded4(words);
      Target(t, blob, SetupCall(i, ArchTimer)) ==
        if v[0] != 1 then Ok(None)
        else if 16 + v[1] >= 32 then Panic
        else Ok(Some(((16 + v[1]) as bv32, v[2] % 4 != 0)))
  {
    hide HasSpecifier, Specifier, Linked, ValuesInside;
    SpecifierReadsBack(t, blob, i, true, at, d, n, words);
    var v := Padded4(words);
    if 16 + v[1] < U32_LIMIT {
      PpiWord(16 + v[1]);
    }
  }

  /** Without a visible "interrupts", or without an interrupt parent, nothing is configured. */
  lemma NoTarget(t: Tables<nat>, blob: seq<Byte>, i: nat)
    requires Readable(t, blob, i)
    requires Find<nat>(t.devices[i], "interrupts") == None || InterruptParentOf(t, blob, i, None)
    ensures Target(t, blob, SetupCall(i, Pl011)) == Ok(None) && Target(t, blob, SetupCall(i, ArchTimer)) == Ok(None)
  {
    hide InterruptParent, InterruptParentOf, ValuesInside, IdWord;
    if Find<nat>(t.devices[i], "interrupts") != None {
      InterruptParentOfIs(t, blob, i, None);
    }
  }

  // ---------- The UART's base address and clock ----------

  /** "reg" starts with an address of as many cells as the parent says. */
  ghost predicate RegStarts(t: Tables<nat>, blob: seq<Byte>, i: nat, at: nat, n: nat, address: nat)
    requires Ready(t, i)
  {
    HasReg(t, blob, i, at, n) && address < Pow256(4 * n) && HasAt(blob, at, BytesOf(address, 4 * n))
  }

  /** `base` is the address that "reg" starts with, modulo 2^64, and 0 when no "reg" is visible. */
  ghost predicate BaseIs(t: Tables<nat>, blob: seq<Byte>, i: nat, base: nat)
    requires Ready(t, i)
  {
    && (Find<nat>(t.devices[i], "reg") == None ==> base == 0)
    && forall at: nat, n: nat, address: nat :: RegStarts(t, blob, i, at, n, address) ==>
      base == address % 0x1_0000_0000_0000_0000
  }

  /** The "clock-frequency" cell of the device, if there is one. */
  ghost predicate FrequencyOf(t: Tables<nat>, blob: seq<Byte>, d: Option<nat>, clock: nat)
    requires Linked(t)
  {
    match d
    case None => clock == 0
    case Some(k) =>
      && k < t.deviceCount
      && match Find<nat>(t.devices[k], "clock-frequency")
         case None => clock == 0
         case Some(p) => CellAt(blob, p, clock)
  }

  ghost predicate ClockThrough(t: Tables<nat>, blob: seq<Byte>, p: Property<nat>, phandle: nat, d: Option<nat>,
          clock: nat)
    requires Linked(t)
  {
    CellAt(blob, p, phandle) && NamesDevice(t, phandle, d) && FrequencyOf(t, blob, d, clock)
  }

  /** `clock` is the frequency of the device that the "clocks" phandle names, 0 when there is none. */
  ghost predicate ClockIs(t: Tables<nat>, blob: seq<Byte>, i: nat, clock: nat)
    requires Ready(t, i)
  {
    match Find<nat>(t.devices[i], "clocks")
    case None => clock == 0
    case Some(p) => exists phandle: nat, d :: ClockThrough(t, blob, p, phandle, d, clock)
  }

  lemma VisibleValue(t: Tables<nat>, blob: seq<Byte>, i: nat, name: string)
    requires Readable(t, blob, i) && name != ""
    ensures match Find<nat>(t.devices[i], name)
      case None => true
      case Some(p) =>
        && p.value.Some? && CellAt(blob, p, ReadCell(blob, p.value.value))
        && ReadValue(blob, p) == Ok(ReadCell(blob, p.value.value))
  {
    hide ReadCell;
  }

  lemma ClockMeaning(t: Tables<nat>, blob: seq<Byte>, i: nat)
    requires Readable(t, blob, i) && ClockOf(t, blob, i).Ok?
    ensures ClockIs(t, blob, i, ClockOf(t, blob, i).value)
  {
    hide ReadCell, ValuesInside, DeviceByPhandle, NamesDevice, Find, CellAt;
    VisibleValue(t, blob, i, "clocks");
    var clocks := Find<nat>(t.devices[i], "clocks");
    if clocks.Some? {
      var phandle := ReadCell(blob, clocks.value.value.value);
      var d := DeviceByPhandle(t, phandle);
      DeviceByPhandleMeaning(t, phandle);
      if d.Some? && d.value < t.deviceCount {
        VisibleValue(t, blob, d.value, "clock-frequency");
      }
      assert ClockThrough(t, blob, clocks.value, phandle, d, ClockOf(t, blob, i).value);
    }
  }

  lemma BaseMeaning(t: Tables<nat>, blob: seq<Byte>, i: nat)
    requires Readable(t, blob, i)
    ensures ParentCells(t, blob, t.devices[i].parent).Ok?
    ensures var base := RegBase(t, blob, i, 0, ParentCells(t, blob, t.devices[i].parent).value.0);
      base.Ok? ==> BaseIs(t, blob, i, base.value)
  {
    hide ParentCells, CellCount, Find, HasAt, Pow256, BytesOf, DecodeCells, ValuesInside;
    var up := t.devices[i].parent;
    ParentCellsMeaning(t, blob, up);
    var cells := ParentCells(t, blob, up).value;
    var base := RegBase(t, blob, i, 0, cells.0);
    if base.Ok? {
      forall at: nat, n: nat, address: nat | RegStarts(t, blob, i, at, n, address)
        ensures base.value == address % 0x1_0000_0000_0000_0000
      {
        OneCellCount(t, blob, up, "#address-cells", 2, n, cells.0);
        EntryDecodes(blob, at, n, 4 * n, address);
      }
    }
  }

  /** A UART setup that completes leaves as base address the address that the
      device's "reg" starts with, and as clock the frequency that its "clocks" leads to. */
  lemma UartSetUp(t: Tables<nat>, blob: seq<Byte>, hw: Gicv3, i: nat, s: Soc)
    requires Readable(t, blob, i)
    ensures var r := RunSetup(t, blob, hw, SetupCall(i, Pl011), s);
      r.Ok? ==> BaseIs(t, blob, i, r.value.uartBase) && ClockIs(t, blob, i, r.value.uartClock)
  {
    hide ParentCells, RegBase, Target, ClockOf, ConfigureSpi, BaseIs, ClockIs, ValuesInside;
    BaseMeaning(t, blob, i);
    if ClockOf(t, blob, i).Ok? {
      ClockMeaning(t, blob, i);
    }
  }

  /** No other setup changes them. */
  lemma OthersKeepUart(t: Tables<nat>, blob: seq<Byte>, hw: Gicv3, c: SetupCall, s: Soc)
    requires Ready(t, c.device) && c.driver != Pl011
    ensures var r := RunSetup(t, blob, hw, c, s);
      r.Ok? ==> r.value.uartBase == s.uartBase && r.value.uartClock == s.uartClock
  {
    hide GicBases, Target, ConfigurePpi, InitWrites;
  }

  ghost predicate LastUart(calls: seq<SetupCall>, k: nat) {
    k < |calls| && calls[k].driver == Pl011 && forall j :: k < j < |calls| ==> calls[j].driver != Pl011
  }

  /** The UART ends as the last of the calls that set one up described it, or as it was. */
  ghost predicate UartDescribed(t: Tables<nat>, blob: seq<Byte>, calls: seq<SetupCall>, before: Soc, after: Soc)
    requires AllReady(t, calls)
  {
    && (forall k: nat :: LastUart(calls, k) ==>
          BaseIs(t, blob, calls[k].device, after.uartBase) && ClockIs(t, blob, calls[k].device, after.uartClock))
    && ((forall k :: 0 <= k < |calls| ==> calls[k].driver != Pl011) ==>
          after.uartBase == before.uartBase && after.uartClock == before.uartClock)
  }

  lemma {:induction false} UartAfterSetups(t: Tables<nat>, blob: seq<Byte>, hw: Gicv3, calls: seq<SetupCall>, s: Soc)
    requires AllReady(t, calls) && ValuesInside(blob, t)
    ensures var r := RunSetups(t, blob, hw, calls, s);
      r.Ok? ==> UartDescribed(t, blob, calls, s, r.value)
    decreases |calls|
  {
    hide RunSetup, BaseIs, ClockIs, ValuesInside, Linked;
    if calls != [] && RunSetups(t, blob, hw, calls, s).Ok? {
      var n := |calls| - 1;
      UartAfterSetups(t, blob, hw, calls[..n], s);
      var s1 := RunSetups(t, blob, hw, calls[..n], s).value;
      if calls[n].driver == Pl011 {
        UartSetUp(t, blob, hw, calls[n].device, s1);
        assert calls[n] == SetupCall(calls[n].device, Pl011);
      } else {
        OthersKeepUart(t, blob, hw, calls[n], s1);
        forall k: nat | LastUart(calls, k) ensures LastUart(calls[..n], k) && calls[..n][k] == calls[k] {
          assert k < n;
        }
      }
    }
  }
}

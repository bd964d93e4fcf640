/** Cell counts of the parent node, and addresses made of cells. */
module Cells {
  import opened Bytes
  import opened DeviceTable
  import opened Fdt
  import opened Readers

  const U64_LIMIT: nat := 0x1_0000_0000_0000_0000

  // ---------- #address-cells and #size-cells ----------

  /** The cell of the last of the first `n` slots named `name`, or `default`. */
  function LastCell(blob: seq<Byte>, ps: seq<Property<nat>>, n: nat, name: string, default: nat): Outcome<nat>
    requires n <= |ps|
  {
    if n == 0 then Ok(default)
    else
      match LastCell(blob, ps, n - 1, name, default)
      case Ok(w) => if TextIs(ps[n - 1].name, name) then ReadValue(blob, ps[n - 1]) else Ok(w)
      case _ => Fault
  }

  const ADDRESS_CELLS := "#address-cells"
  const SIZE_CELLS := "#size-cells"

  /** get_parent_cells. */
  function ParentCells(t: Tables<nat>, blob: seq<Byte>, parent: Option<nat>): Outcome<(nat, nat)>
    requires t.Valid() && (parent.Some? ==> parent.value < MAX_DEVICES && t.devices[parent.value].propCount <= MAX_PROPS)
  {
    if parent.None? then Ok((2, 1))
    else
      var d := t.devices[parent.value];
      var a, s := LastCell(blob, d.properties, d.propCount, ADDRESS_CELLS, 2),
                  LastCell(blob, d.properties, d.propCount, SIZE_CELLS, 1);
      if a.Ok? && s.Ok? then Ok((a.value, s.value)) else Fault
  }

  lemma {:induction false} LastCellKeepsFault(blob: seq<Byte>, ps: seq<Property<nat>>, n: nat, m: nat,
          name: string, default: nat)
    requires n <= m <= |ps| && !LastCell(blob, ps, n, name, default).Ok?
    ensures !LastCell(blob, ps, m, name, default).Ok?
    decreases m
  {
    if n < m {
      LastCellKeepsFault(blob, ps, n, m - 1, name, default);
    }
  }

  method GetParentCells(dt: DeviceTree, blob: seq<Byte>, parent: Option<nat>) returns (r: Outcome<(nat, nat)>)
    requires dt.Valid()
    requires parent.Some? ==> parent.value < MAX_DEVICES && dt.devices[parent.value].propCount <= MAX_PROPS
    ensures r == ParentCells(dt.Snapshot(), blob, parent)
  {
    var addr, size := 2, 1;
    if parent.None? {
      return Ok((addr, size));
    }
    var d := dt.devices[parent.value];
    var i := 0;
    while i < d.propCount
      invariant i <= d.propCount
      invariant LastCell(blob, d.properties, i, ADDRESS_CELLS, 2) == Ok(addr)
      invariant LastCell(blob, d.properties, i, SIZE_CELLS, 1) == Ok(size)
    {
      var prop := d.properties[i];
      if TextIs(prop.name, ADDRESS_CELLS) {
        var w := ReadValue(blob, prop);
        if w.IsFailure() {
          LastCellKeepsFault(blob, d.properties, i + 1, d.propCount, ADDRESS_CELLS, 2);
          return Fault;
        }
        NamesDiffer(prop.name);
        addr := w.value;
      } else if TextIs(prop.name, SIZE_CELLS) {
        var w := ReadValue(blob, prop);
        if w.IsFailure() {
          LastCellKeepsFault(blob, d.properties, i + 1, d.propCount, SIZE_CELLS, 1);
          return Fault;
        }
        size := w.value;
      }
      i := i + 1;
    }
    r := Ok((addr, size));
  }

  lemma NamesDiffer(name: seq<Byte>)
    requires TextIs(name, ADDRESS_CELLS)
    ensures !TextIs(name, SIZE_CELLS)
  {
    assert name[1] == name[1..][0] == 'a' as int;
  }

  /** On parsed tables a cell count is the cell of the last visible slot with
      that name, and the default when no visible slot has it. */
  lemma {:induction false} LastCellMeaning(blob: seq<Byte>, ps: seq<Property<nat>>, n: nat, name: string, default: nat)
    requires n <= |ps| && name != "" && forall k :: 0 <= k < n ==> ValueInside(blob, ps[k])
    ensures LastCell(blob, ps, n, name, default).Ok?
    ensures var w := LastCell(blob, ps, n, name, default).value;
      || (w == default && forall k :: 0 <= k < n ==> !TextIs(ps[k].name, name))
      || (exists k :: 0 <= k < n && TextIs(ps[k].name, name) && ReadValue(blob, ps[k]) == Ok(w)
            && forall j :: k < j < n ==> !TextIs(ps[j].name, name))
  {
    if n > 0 {
      LastCellMeaning(blob, ps, n - 1, name, default);
    }
  }

  /** Slot `k` is the last of the first `n` slots with that name, and holds the cell `w`. */
  ghost predicate LastVisible(blob: seq<Byte>, ps: seq<Property<nat>>, n: nat, name: string, k: nat, w: nat)
    requires n <= |ps|
  {
    && k < n && TextIs(ps[k].name, name) && (forall j :: k < j < n ==> !TextIs(ps[j].name, name))
    && ps[k].value.Some? && ps[k].value.value + 4 <= |blob| && w == ReadCell(blob, ps[k].value.value)
  }

  /** `w` is the cell of the parent's last visible slot of that name, and the
      default when there is no parent or no such slot. */
  ghost predicate CellCount(t: Tables<nat>, blob: seq<Byte>, parent: Option<nat>, name: string, default: nat, w: nat)
    requires Linked(t) && InTable(t, parent)
  {
    match parent
    case None => w == default
    case Some(d) =>
      var ps, n := t.devices[d].properties, t.devices[d].propCount;
      || (w == default && forall k :: 0 <= k < n ==> !TextIs(ps[k].name, name))
      || exists k :: LastVisible(blob, ps, n, name, k, w)
  }

  lemma OneCellCount(t: Tables<nat>, blob: seq<Byte>, parent: Option<nat>, name: string, default: nat, w: nat, w': nat)
    requires Linked(t) && InTable(t, parent)
    requires CellCount(t, blob, parent, name, default, w) && CellCount(t, blob, parent, name, default, w')
    ensures w == w'
  {
    hide TextIs, ReadCell;
    if parent.Some? {
      var ps, n := t.devices[parent.value].properties, t.devices[parent.value].propCount;
      if k :| LastVisible(blob, ps, n, name, k, w) {
        if k' :| LastVisible(blob, ps, n, name, k', w') {
          assert k == k';
        }
      }
    }
  }

  lemma LastCellCounts(t: Tables<nat>, blob: seq<Byte>, d: nat, name: string, default: nat)
    requires Linked(t) && ValuesInside(blob, t) && d < t.deviceCount && name != ""
    ensures var r := LastCell(blob, t.devices[d].properties, t.devices[d].propCount, name, default);
      r.Ok? && CellCount(t, blob, Some(d), name, default, r.value)
  {
    hide TextIs, LastCell, ReadCell;
    var ps, n := t.devices[d].properties, t.devices[d].propCount;
    LastCellMeaning(blob, ps, n, name, default);
    var w := LastCell(blob, ps, n, name, default).value;
    if k :| 0 <= k < n && TextIs(ps[k].name, name) && ReadValue(blob, ps[k]) == Ok(w)
            && forall j :: k < j < n ==> !TextIs(ps[j].name, name) {
      assert LastVisible(blob, ps, n, name, k, w);
    }
  }

  /** get_parent_cells on parsed tables: "#address-cells" with default 2, then
      "#size-cells" with default 1. */
  lemma ParentCellsMeaning(t: Tables<nat>, blob: seq<Byte>, parent: Option<nat>)
    requires Linked(t) && ValuesInside(blob, t) && InTable(t, parent)
    ensures ParentCells(t, blob, parent).Ok?
    ensures CellCount(t, blob, parent, "#address-cells", 2, ParentCells(t, blob, parent).value.0)
    ensures CellCount(t, blob, parent, "#size-cells", 1, ParentCells(t, blob, parent).value.1)
  {
    hide TextIs, LastCell, ReadCell, ValuesInside;
    if parent.Some? {
      LastCellCounts(t, blob, parent.value, "#address-cells", 2);
      LastCellCounts(t, blob, parent.value, "#size-cells", 1);
    }
  }

  /** ... and these determine it. */
  lemma ParentCellsAre(t: Tables<nat>, blob: seq<Byte>, parent: Option<nat>, addr: nat, size: nat)
    requires Linked(t) && ValuesInside(blob, t) && InTable(t, parent)
    requires CellCount(t, blob, parent, "#address-cells", 2, addr) && CellCount(t, blob, parent, "#size-cells", 1, size)
    ensures ParentCells(t, blob, parent) == Ok((addr, size))
  {
    hide CellCount, ParentCells, ValuesInside;
    ParentCellsMeaning(t, blob, parent);
    var cells := ParentCells(t, blob, parent).value;
    OneCellCount(t, blob, parent, "#address-cells", 2, addr, cells.0);
    OneCellCount(t, blob, parent, "#size-cells", 1, size, cells.1);
  }

  // ---------- Addresses ----------

  /** `n` cells at `at` as a 64-bit address: their big-endian value modulo 2^64. */
  function DecodeCells(blob: seq<Byte>, at: nat, n: nat): (r: Outcome<nat>)
    ensures r.Ok? ==> r.value < U64_LIMIT
  {
    if n == 0 then Ok(0)
    else if at + 4 * n <= |blob| then Ok(BigEndian(blob[at..at + 4 * n]) % U64_LIMIT)
    else Fault
  }

  lemma ShiftByte(v: nat, p: nat, w: nat, last: nat)
    ensures 256 * (v * p + w) + last == v * (256 * p) + (256 * w + last)
  {
  }

  lemma {:induction false} BigEndianConcat(a: seq<Byte>, b: seq<Byte>)
    ensures BigEndian(a + b) == BigEndian(a) * Pow256(|b|) + BigEndian(b)
    decreases |b|
  {
    if b == [] {
      assert a + b == a;
    } else {
      var b' := b[..|b| - 1];
      BigEndianConcat(a, b');
      assert (a + b)[..|a + b| - 1] == a + b';
      ShiftByte(BigEndian(a), Pow256(|b'|), BigEndian(b'), b[|b| - 1]);
    }
  }

  lemma PowersOf256()
    ensures Pow256(4) == U32_LIMIT && Pow256(8) == U64_LIMIT
  {
    assert Pow256(2) == 256 * Pow256(1) && Pow256(4) == 256 * Pow256(3) && Pow256(6) == 256 * Pow256(5);
    assert Pow256(3) == 256 * Pow256(2) && Pow256(5) == 256 * Pow256(4) && Pow256(7) == 256 * Pow256(6);
  }

  lemma ShiftInCell(v: nat, cell: nat)
    requires cell < U32_LIMIT
    ensures (v * U32_LIMIT + cell) % U64_LIMIT == (v % U64_LIMIT) % U32_LIMIT * U32_LIMIT + cell
  {
    var q, u := v / U64_LIMIT, v % U64_LIMIT;
    var high, low := u / U32_LIMIT, u % U32_LIMIT;
    RemainderIs(v * U32_LIMIT + cell, q * U32_LIMIT + high, low * U32_LIMIT + cell);
  }

  lemma RemainderIs(n: nat, k: nat, r: nat)
    requires n == k * U64_LIMIT + r && r < U64_LIMIT
    ensures n % U64_LIMIT == r
  {
  }

  lemma DecodeNextCell(blob: seq<Byte>, at: nat, i: nat, addr: nat)
    requires at + 4 * i + 4 <= |blob| && DecodeCells(blob, at, i) == Ok(addr)
    ensures DecodeCells(blob, at, i + 1) == Ok(addr % U32_LIMIT * U32_LIMIT + ReadCell(blob, at + 4 * i))
  {
    var a, b := blob[at..at + 4 * i], blob[at + 4 * i..at + 4 * i + 4];
    assert blob[at..at + 4 * (i + 1)] == a + b;
    BigEndianConcat(a, b);
    PowersOf256();
    assert addr == BigEndian(a) % U64_LIMIT;
    ShiftInCell(BigEndian(a), BigEndian(b));
  }

  /** The accumulating loop: `addr = (addr << 32) | cell` on 64 bits. */
  method ReadCells(blob: seq<Byte>, at: nat, n: nat) returns (r: Outcome<nat>)
    ensures r == DecodeCells(blob, at, n)
  {
    var addr: nat := 0;
    var i := 0;
    while i < n
      invariant i <= n
      invariant i > 0 ==> at + 4 * i <= |blob|
      invariant DecodeCells(blob, at, i) == Ok(addr)
    {
      if at + 4 * i + 4 > |blob| {
        return Fault;
      }
      var cell := ReadCell(blob, at + 4 * i);
      DecodeNextCell(blob, at, i, addr);
      addr := addr % U32_LIMIT * U32_LIMIT + cell;
      i := i + 1;
    }
    r := Ok(addr);
  }

  /** An address written as `n` cells, of any number, reads back modulo 2^64. */
  lemma EntryDecodes(blob: seq<Byte>, at: nat, n: nat, len: nat, address: nat)
    requires len == 4 * n && address < Pow256(len) && HasAt(blob, at, BytesOf(address, len))
    ensures DecodeCells(blob, at, n) == Ok(address % U64_LIMIT)
  {
    hide Pow256, BytesOf, BigEndian, HasAt;
    HasAtIsSlice(blob, at, BytesOf(address, len));
    BigEndianRoundTrip(address, len);
    if n == 0 {
      NoCells(address);
    }
  }

  lemma NoCells(address: nat)
    requires address < Pow256(0)
    ensures address == 0
  {
  }

  lemma FitsInWord(n: nat, address: nat)
    requires 1 <= n <= 2 && address < Pow256(4 * n)
    ensures address < U64_LIMIT
  {
    hide Pow256;
    PowersOf256();
  }

  /** Addresses of one or two cells read back exactly. */
  lemma AddressRoundTrip(blob: seq<Byte>, at: nat, n: nat, address: nat)
    requires 1 <= n <= 2 && address < Pow256(4 * n) && HasAt(blob, at, BytesOf(address, 4 * n))
    ensures DecodeCells(blob, at, n) == Ok(address)
  {
    hide Pow256, BytesOf, BigEndian, HasAt, DecodeCells;
    EntryDecodes(blob, at, n, 4 * n, address);
    FitsInWord(n, address);
  }
}

/** Identity page tables: descriptors OR-ed together in memory, against an
    independent walk of the tables (section D8.3 of the Arm Architecture
    Reference Manual, 4 KiB granule, 48-bit addresses). */
module PageTable {

  const DESC_UXN: bv64 := 1 << 54
  const DESC_PXN: bv64 := 1 << 53
  const DESC_AF: bv64 := 1 << 10
  const DESC_SH_INNER: bv64 := 3 << 8
  const DESC_SH_NONE: bv64 := 0
  const DESC_AP_RW_EL1: bv64 := 0
  const TABLE_APTABLE0: bv64 := 1 << 61
  const TABLE_UXNTABLE: bv64 := 1 << 60
  const MAIR_IDX_DEVICE: bv64 := 0
  const MAIR_IDX_NORMAL_WB: bv64 := 2
  const PAGE_MASK: bv64 := 0xFFFF_FFFF_FFFF_F000
  const SZ_1G: bv64 := 0x4000_0000

  const ENTRIES: nat := 512
  const VA_LIMIT: bv64 := 0x1_0000_0000_0000

  /** A table index as a machine word. */
  function Word(i: nat): bv64
    requires i < ENTRIES
  {
    i as bv64
  }

  // ---------- The architecture's walk ----------

  datatype Attributes = Attributes(
    attrIndex: bv64, ap: bv64, sh: bv64, uxn: bool, pxn: bool,
    apTable: bv64, uxnTable: bool, pxnTable: bool)

  datatype Translation =
    | Mapped(pa: bv64, attrs: Attributes)
    | TranslationFault
    | AccessFlagFault
    | NextTable
    | OtherTable

  function L0Bits(va: bv64): (w: bv64) ensures w < 512 { (va >> 39) & 0x1FF }
  function L1Bits(va: bv64): (w: bv64) ensures w < 512 { (va >> 30) & 0x1FF }

  function Index(w: bv64): (i: nat)
    requires w < 512
    ensures i < ENTRIES
  {
    w as int
  }

  function L0Index(va: bv64): nat { Index(L0Bits(va)) }
  function L1Index(va: bv64): nat { Index(L1Bits(va)) }

  /** The level 1 lookup under a level 0 table descriptor. */
  function WalkL1(l0: bv64, d: bv64, va: bv64): Translation {
    if d & 1 == 0 then TranslationFault
    else if d & 2 != 0 then NextTable
    else if d & (1 << 10) == 0 then AccessFlagFault
    else Mapped(
      (d & 0x0000_FFFF_C000_0000) | (va & 0x3FFF_FFFF),
      Attributes((d >> 2) & 7, (d >> 6) & 3, (d >> 8) & 3, d & (1 << 54) != 0, d & (1 << 53) != 0,
                 (l0 >> 61) & 3, l0 & (1 << 60) != 0, l0 & (1 << 59) != 0))
  }

  /** Translation of a 48-bit address with TTBR0 pointing at the table `l0` and
      the level 1 table `l1` at address `l1Addr`. At level 0 only table
      descriptors are valid. */
  function Walk(l0: seq<bv64>, l1Addr: bv64, l1: seq<bv64>, va: bv64): Translation
    requires |l0| == ENTRIES && |l1| == ENTRIES
  {
    var d := l0[L0Index(va)];
    if d & 3 != 3 then TranslationFault
    else if d & 0x0000_FFFF_FFFF_F000 != l1Addr then OtherTable
    else WalkL1(d, l1[L1Index(va)], va)
  }

  // ---------- What the kernel builds ----------

  function TableDesc(l1: bv64): bv64 {
    3 | (TABLE_UXNTABLE | TABLE_APTABLE0) | (l1 & PAGE_MASK)
  }

  function BlockDesc(i: bv64): bv64 {
    (if i == 0 then
       1 | ((MAIR_IDX_DEVICE & 7) << 2) | (DESC_UXN | DESC_PXN | DESC_AF | DESC_SH_NONE | DESC_AP_RW_EL1)
     else
       1 | ((MAIR_IDX_NORMAL_WB & 7) << 2) | (DESC_UXN | DESC_AF | DESC_SH_INNER | DESC_AP_RW_EL1))
    | ((i * SZ_1G) & PAGE_MASK)
  }

  lemma DeviceBlock()
    ensures BlockDesc(0) & 3 == 1 && BlockDesc(0) & (1 << 10) != 0
    ensures (BlockDesc(0) >> 2) & 7 == 0 && (BlockDesc(0) >> 6) & 3 == 0 && (BlockDesc(0) >> 8) & 3 == 0
    ensures BlockDesc(0) & (1 << 54) != 0 && BlockDesc(0) & (1 << 53) != 0
    ensures BlockDesc(0) & 0x0000_FFFF_C000_0000 == 0
  {
  }

  lemma NormalBlockKind(i: bv64)
    requires 0 < i < 512
    ensures BlockDesc(i) & 1 != 0 && BlockDesc(i) & 2 == 0 && BlockDesc(i) & (1 << 10) != 0
  {
  }
  lemma NormalBlock(i: bv64)
    requires 0 < i < 512
    ensures (BlockDesc(i) >> 2) & 7 == 2 && (BlockDesc(i) >> 6) & 3 == 0 && (BlockDesc(i) >> 8) & 3 == 3
    ensures BlockDesc(i) & (1 << 54) != 0 && BlockDesc(i) & (1 << 53) == 0
  {
  }
  lemma NormalBlockAddress(i: bv64)
    requires 0 < i < 512
    ensures BlockDesc(i) & 0x0000_FFFF_C000_0000 == i << 30
  {
  }
  lemma Recompose(va: bv64)
    ensures ((va >> 30) << 30) | (va & 0x3FFF_FFFF) == va
  {
  }

  lemma RecomposeLow(va: bv64)
    requires va >> 30 == 0
    ensures 0 | (va & 0x3FFF_FFFF) == va
  {
  }

  /** A page-aligned address below 2^48. */
  predicate PageAddress(a: bv64) {
    a & 0xFFF == 0 && a < VA_LIMIT
  }

  lemma TableDescWalk(l1: bv64)
    requires PageAddress(l1)
    ensures TableDesc(l1) & 3 == 3 && TableDesc(l1) & 0x0000_FFFF_FFFF_F000 == l1
    ensures (TableDesc(l1) >> 61) & 3 == 1 && TableDesc(l1) & (1 << 60) != 0 && TableDesc(l1) & (1 << 59) == 0
  {
  }

  /** What the architecture reads from the block of the first GiB, and from the others. */
  function DeviceAttributes(): Attributes {
    Attributes(0, 0, 0, true, true, 1, true, false)
  }

  function NormalAttributes(): Attributes {
    Attributes(2, 0, 3, true, false, 1, true, false)
  }

  lemma BlockWalk(l1: bv64, i: bv64, va: bv64)
    requires i < 512 && va >> 30 == i && PageAddress(l1)
    ensures WalkL1(TableDesc(l1), BlockDesc(i), va) ==
            Mapped(va, if i == 0 then DeviceAttributes() else NormalAttributes())
  {
    hide TableDesc, BlockDesc;
    TableDescWalk(l1);
    if i == 0 {
      DeviceBlock();
      RecomposeLow(va);
    } else {
      NormalBlockKind(i);
      NormalBlock(i);
      NormalBlockAddress(i);
      Recompose(va);
    }
  }

  // ---------- Building the tables ----------

  function OrBits(v: bv64, bits: bv64): bv64 { v | bits }
  function AttrField(idx: bv64): bv64 { (idx & 7) << 2 }
  function AddrField(addr: bv64): bv64 { addr & PAGE_MASK }
  function GiB(i: bv64): bv64 { i * SZ_1G }

  /** The level 0 entry as the setup leaves it: OR-ed into, never cleared. */
  function L0Entry(before: bv64, l1: bv64): bv64 {
    OrBits(before, TableDesc(l1))
  }

  lemma OrAssoc(a: bv64, b: bv64, c: bv64, d: bv64)
    ensures OrBits(OrBits(OrBits(a, b), c), d) == OrBits(a, OrBits(OrBits(b, c), d))
  {
  }

  lemma TableDescSteps(l1: bv64)
    ensures TableDesc(l1) == OrBits(OrBits(3, TABLE_UXNTABLE | TABLE_APTABLE0), AddrField(l1))
  {
  }

  lemma L0Steps(before: bv64, l1: bv64)
    ensures OrBits(OrBits(OrBits(before, 3), TABLE_UXNTABLE | TABLE_APTABLE0), AddrField(l1)) == L0Entry(before, l1)
  {
    hide OrBits, TableDesc, AddrField;
    OrAssoc(before, 3, TABLE_UXNTABLE | TABLE_APTABLE0, AddrField(l1));
    TableDescSteps(l1);
  }

  /** Every bit of the old level 0 entry is a bit of the table descriptor. */
  predicate OnlyTableBits(before: bv64, l1: bv64) {
    before & !TableDesc(l1) == 0
  }

  /** The level 0 entry ends as the table descriptor exactly when it had no other bit before. */
  lemma TableBitsOver(before: bv64, l1: bv64)
    ensures L0Entry(before, l1) == TableDesc(l1) <==> OnlyTableBits(before, l1)
  {
    hide TableDesc;
  }

  const DEVICE_ATTRS: bv64 := DESC_UXN | DESC_PXN | DESC_AF | DESC_SH_NONE | DESC_AP_RW_EL1
  const NORMAL_ATTRS: bv64 := DESC_UXN | DESC_AF | DESC_SH_INNER | DESC_AP_RW_EL1

  lemma DeviceBits()
    ensures
      OrBits(OrBits(OrBits(OrBits(0, 1), AttrField(MAIR_IDX_DEVICE)), DEVICE_ATTRS), AddrField(GiB(0))) == BlockDesc(0)
  {
  }

  lemma NormalBits(i: bv64)
    requires i != 0
    ensures
      OrBits(OrBits(OrBits(OrBits(0, 1), AttrField(MAIR_IDX_NORMAL_WB)), NORMAL_ATTRS), AddrField(GiB(i))) == BlockDesc(i)
  {
  }

  lemma WordZero(i: nat)
    requires i < ENTRIES
    ensures Word(i) < 512 && (Word(i) == 0 <==> i == 0)
  {
  }

  // The descriptor helpers, each `*desc |= bits`.

  method OrInto(table: array<bv64>, i: nat, bits: bv64)
    requires i < table.Length
    modifies table
    ensures table[..] == old(table[..])[i := OrBits(old(table[i]), bits)]
  {
    table[i] := OrBits(table[i], bits);
  }

  method MarkTableDesc(table: array<bv64>, i: nat)
    requires i < table.Length
    modifies table
    ensures table[..] == old(table[..])[i := OrBits(old(table[i]), 3)]
  {
    OrInto(table, i, 3);
  }

  method MarkBlockDesc(table: array<bv64>, i: nat)
    requires i < table.Length
    modifies table
    ensures table[..] == old(table[..])[i := OrBits(old(table[i]), 1)]
  {
    OrInto(table, i, 1);
  }

  method SetMairRange(table: array<bv64>, i: nat, idx: bv64)
    requires i < table.Length
    modifies table
    ensures table[..] == old(table[..])[i := OrBits(old(table[i]), AttrField(idx))]
  {
    OrInto(table, i, AttrField(idx));
  }

  method SetNextLvlTableAddr(table: array<bv64>, i: nat, addr: bv64)
    requires i < table.Length
    modifies table
    ensures table[..] == old(table[..])[i := OrBits(old(table[i]), AddrField(addr))]
  {
    OrInto(table, i, AddrField(addr));
  }

  /** One iteration of the loop: clears entry `i` and builds its block descriptor. */
  method BuildEntry(l1: array<bv64>, i: nat, j: nat)
    requires i < l1.Length <= ENTRIES && (j == 0 <==> i == 0)
    modifies l1
    ensures l1[..] == old(l1[..])[i := BlockDesc(Word(i))]
  {
    hide OrBits, BlockDesc, Word, AttrField, AddrField, GiB;
    WordZero(i);
    l1[i] := 0;
    MarkBlockDesc(l1, i);
    SetMairRange(l1, i, if j == 0 then MAIR_IDX_DEVICE else MAIR_IDX_NORMAL_WB);
    if j == 0 {
      OrInto(l1, i, DEVICE_ATTRS);
      DeviceBits();
    } else {
      OrInto(l1, i, NORMAL_ATTRS);
      NormalBits(Word(i));
    }
    SetNextLvlTableAddr(l1, i, GiB(Word(i)));
  }

  /** The table with its first `n` entries built. */
  function Blocks(l1: seq<bv64>, n: nat): (r: seq<bv64>)
    requires n <= |l1| <= ENTRIES
    ensures |r| == |l1|
  {
    seq(n, i requires 0 <= i < n => BlockDesc(Word(i))) + l1[n..]
  }

  lemma BlocksStep(l1: seq<bv64>, n: nat)
    requires n < |l1| <= ENTRIES
    ensures Blocks(l1, n)[n := BlockDesc(Word(n))] == Blocks(l1, n + 1)
  {
    hide BlockDesc, Word;
  }

  lemma NoBlocks(l1: seq<bv64>)
    requires |l1| <= ENTRIES
    ensures Blocks(l1, 0) == l1
  {
  }

  /** The level 0 entry: a table descriptor OR-ed in. */
  method BuildTableEntry(l0: array<bv64>, l1Addr: bv64)
    requires l0.Length == ENTRIES
    modifies l0
    ensures l0[..] == old(l0[..])[0 := L0Entry(old(l0[0]), l1Addr)]
  {
    hide OrBits, AddrField, L0Entry;
    MarkTableDesc(l0, 0);
    OrInto(l0, 0, TABLE_UXNTABLE | TABLE_APTABLE0);
    SetNextLvlTableAddr(l0, 0, l1Addr);
    L0Steps(old(l0[0]), l1Addr);
  }

  /** setup_identity_mapping up to loading TTBR0: builds max(2, pages) entries. */
  method SetupIdentityMapping(l0: array<bv64>, l1: array<bv64>, l1Addr: bv64, pages: nat) returns (n: nat)
    requires l0.Length == ENTRIES && l1.Length == ENTRIES && l0 != l1
    requires pages <= ENTRIES
    modifies l0, l1
    ensures n == if pages > 2 then pages else 2
    ensures l0[..] == old(l0[..])[0 := L0Entry(old(l0[0]), l1Addr)]
    ensures l1[..] == Blocks(old(l1[..]), n)
  {
    hide OrBits, BlockDesc, Word, L0Entry, Blocks;
    n := if pages > 2 then pages else 2;
    BuildTableEntry(l0, l1Addr);
    NoBlocks(l1[..]);
    var j := 0;
    for i := 0 to n
      invariant 0 <= j <= 1 && (j == 0 <==> i == 0)
      invariant l0[..] == old(l0[..])[0 := L0Entry(old(l0[0]), l1Addr)]
      invariant l1[..] == Blocks(old(l1[..]), i)
    {
      BuildEntry(l1, i, j);
      BlocksStep(old(l1[..]), i);
      if j < 1 {
        j := j + 1;
      }
    }
  }

  // ---------- Translation through the built tables ----------

  lemma IndexBits(va: bv64)
    requires va < VA_LIMIT
    ensures L0Bits(va) == 0 <==> va >> 30 < 512
    ensures va >> 30 < 512 ==> L1Bits(va) == va >> 30
  {
  }

  lemma IndexOfWord(w: bv64)
    requires w < 512
    ensures Word(Index(w)) == w && (Index(w) == 0 <==> w == 0)
  {
  }

  lemma WalkZero(l0: bv64, va: bv64)
    ensures WalkL1(l0, 0, va) == TranslationFault
  {
  }

  /** The address is below `n` GiB. */
  predicate BelowGiB(va: bv64, n: nat) {
    va >> 30 < 512 && Index(va >> 30) < n
  }

  /** The tables as the setup leaves them, from what they held before. */
  function Built0(l0: seq<bv64>, l1Addr: bv64): (r: seq<bv64>)
    requires |l0| == ENTRIES
    ensures |r| == ENTRIES
  {
    l0[0 := L0Entry(l0[0], l1Addr)]
  }

  predicate Zeroed(table: seq<bv64>) {
    forall i :: 0 <= i < |table| ==> table[i] == 0
  }

  lemma WalkInvalid(l0: seq<bv64>, l1Addr: bv64, l1: seq<bv64>, va: bv64)
    requires |l0| == |l1| == ENTRIES && l0[L0Index(va)] == 0
    ensures Walk(l0, l1Addr, l1, va) == TranslationFault
  {
  }

  /** A walk through the table descriptor goes on to the level 1 table. */
  lemma WalkThroughTable(l0: seq<bv64>, l1Addr: bv64, l1: seq<bv64>, va: bv64)
    requires |l0| == |l1| == ENTRIES && PageAddress(l1Addr) && va < VA_LIMIT && va >> 30 < 512
    requires l0[0] == TableDesc(l1Addr)
    ensures L1Index(va) == Index(va >> 30)
    ensures Walk(l0, l1Addr, l1, va) == WalkL1(TableDesc(l1Addr), l1[L1Index(va)], va)
  {
    hide TableDesc, L0Bits, L1Bits, Index, WalkL1;
    TableDescWalk(l1Addr);
    IndexBits(va);
    IndexOfWord(L0Bits(va));
  }

  lemma BlockIndex(va: bv64)
    requires va >> 30 < 512
    ensures Word(Index(va >> 30)) == va >> 30
  {
    hide Word, Index;
    IndexOfWord(va >> 30);
  }

  /** The independent walk of the built tables maps every address below `n` GiB
      to itself, with the access flag set, whatever the other entries held; and
      when the tables were zeroed it faults on every other 48-bit address. The
      level 0 entry must not have had a bit that its descriptor does not have. */
  lemma IdentityTranslation(l0: seq<bv64>, l1: seq<bv64>, l1Addr: bv64, n: nat, va: bv64)
    requires |l0| == |l1| == ENTRIES && PageAddress(l1Addr) && n <= ENTRIES && va < VA_LIMIT
    requires OnlyTableBits(l0[0], l1Addr)
    ensures BelowGiB(va, n) ==>
      (Walk(Built0(l0, l1Addr), l1Addr, Blocks(l1, n), va) ==
       Mapped(va, if va >> 30 == 0 then DeviceAttributes() else NormalAttributes()))
    ensures !BelowGiB(va, n) && Zeroed(l0) && Zeroed(l1) ==>
      Walk(Built0(l0, l1Addr), l1Addr, Blocks(l1, n), va) == TranslationFault
  {
    hide BlockDesc, TableDesc, L0Entry, OnlyTableBits, L0Bits, L1Bits, Index, Walk, WalkL1, Word;
    TableBitsOver(l0[0], l1Addr);
    if va >> 30 < 512 {
      WalkThroughTable(Built0(l0, l1Addr), l1Addr, Blocks(l1, n), va);
      BlockIndex(va);
      BlockWalk(l1Addr, va >> 30, va);
      WalkZero(TableDesc(l1Addr), va);
    } else {
      IndexBits(va);
      IndexOfWord(L0Bits(va));
      if Zeroed(l0) {
        WalkInvalid(Built0(l0, l1Addr), l1Addr, Blocks(l1, n), va);
      }
    }
  }
}

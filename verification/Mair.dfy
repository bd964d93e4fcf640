/** MAIR_EL1 and what the mapped addresses may be used for. */
module Mair {
  import opened PageTable

  const MAIR_DEVICE_NGNRNE: bv64 := 0x00
  const MAIR_NORMAL_NC: bv64 := 0x44
  const MAIR_NORMAL_WB: bv64 := 0xFF

  /** Attribute encoding `k` of the register. */
  function Slot(mair: bv64, k: nat): bv64
    requires k < 8
  {
    match k
    case 0 => mair & 0xFF
    case 1 => (mair >> 8) & 0xFF
    case 2 => (mair >> 16) & 0xFF
    case 3 => (mair >> 24) & 0xFF
    case 4 => (mair >> 32) & 0xFF
    case 5 => (mair >> 40) & 0xFF
    case 6 => (mair >> 48) & 0xFF
    case _ => (mair >> 56) & 0xFF
  }

  class SystemRegister {
    var value: bv64

    /** Ors an encoding into one slot; `shift` is eight times the slot. */
    method ConfigureMairRange(conf: bv64, shift: bv64)
      requires shift <= 56
      modifies this
      ensures value == old(value) | (conf << shift)
    {
      value := value | (conf << shift);
    }

    /** setup_mair_ranges: slots 0, 2 and 1. */
    method SetupMairRanges()
      modifies this
      ensures value == Configured(old(value))
    {
      ConfigureMairRange(MAIR_DEVICE_NGNRNE, 0);
      ConfigureMairRange(MAIR_NORMAL_WB, 16);
      ConfigureMairRange(MAIR_NORMAL_NC, 8);
    }
  }

  function Configured(mair: bv64): bv64 {
    ((mair | (MAIR_DEVICE_NGNRNE << 0)) | (MAIR_NORMAL_WB << 16)) | (MAIR_NORMAL_NC << 8)
  }

  /** Because the encodings are OR-ed in, slot 2 is always 0xFF, write-back, while
      slots 0, Device-nGnRnE, and 1, non-cacheable, are right exactly when they had no other bit set before.
      The unused slots keep their values. */
  lemma SlotsConfigured(mair: bv64)
    ensures Slot(Configured(mair), 0) == 0x00 <==> Slot(mair, 0) == 0
    ensures Slot(Configured(mair), 1) == 0x44 <==> Slot(mair, 1) & 0xBB == 0
    ensures Slot(Configured(mair), 2) == 0xFF
    ensures forall k :: 3 <= k < 8 ==> Slot(Configured(mair), k) == Slot(mair, k)
  {
  }

  datatype MemoryType = DeviceNGnRnE | NormalWriteBack | OtherType

  /** The MAIR_EL1 attribute encodings that the kernel uses. */
  function TypeOf(encoding: bv64): MemoryType {
    if encoding == 0x00 then DeviceNGnRnE
    else if encoding == 0xFF then NormalWriteBack
    else OtherType
  }

  datatype Use = Use(memory: MemoryType, innerShareable: bool, el1Exec: bool, el1Write: bool, el0Exec: bool,
          el0Access: bool)

  /** What the walk's attributes and MAIR_EL1 permit: execute-never bits of the
      block and of the table descriptor are combined, and APTable bit 0 removes
      EL0 access. */
  function UseOf(a: Attributes, mair: bv64): Use
    requires a.attrIndex == 0 || a.attrIndex == 2
  {
    Use(
      TypeOf(Slot(mair, if a.attrIndex == 0 then 0 else 2)),
      a.sh == 3,
      !a.pxn && !a.pxnTable,
      a.ap & 2 == 0 && a.apTable & 2 == 0,
      !a.uxn && !a.uxnTable,
      a.ap & 1 != 0 && a.apTable & 1 == 0)
  }

  /** Every mapped address below 1 GiB is device memory that nothing executes
      from; every mapped address from 1 GiB up is inner-shareable write-back
      memory executable at EL1 only; EL0 can neither access nor execute anything. */
  lemma EffectiveUse(l0: seq<bv64>, l1: seq<bv64>, l1Addr: bv64, n: nat, va: bv64, mair: bv64)
    requires |l0| == |l1| == ENTRIES && PageAddress(l1Addr) && n <= ENTRIES && va < VA_LIMIT && BelowGiB(va, n)
    requires OnlyTableBits(l0[0], l1Addr) && Slot(mair, 0) == 0
    ensures var t := Walk(Built0(l0, l1Addr), l1Addr, Blocks(l1, n), va);
      && t.Mapped? && t.pa == va
      && (t.attrs.attrIndex == 0 || t.attrs.attrIndex == 2)
      && UseOf(t.attrs, Configured(mair)) ==
         if va >> 30 == 0 then Use(DeviceNGnRnE, false, false, true, false, false)
         else Use(NormalWriteBack, true, true, true, false, false)
  {
    hide Walk, Built0, Blocks, OnlyTableBits, Configured, Slot, BelowGiB;
    IdentityTranslation(l0, l1, l1Addr, n, va);
    SlotsConfigured(mair);
  }
}

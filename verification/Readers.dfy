/** What the drivers read from the parsed tables: devices by phandle, the
    interrupt parent, the parent's cell counts, and addresses made of cells. */
module Readers {
  import opened Bytes
  import opened DeviceTable
  import opened Fdt
  import opened Lookup

  ghost predicate IsFirstEntry<V>(t: Tables<V>, phandle: nat, k: nat) {
    k < |t.phandles| && t.phandles[k].phandle == phandle
    && forall j :: 0 <= j < k ==> t.phandles[j].phandle != phandle
  }

  /** The device of the first of the first `n` phandle entries with that value. */
  function PhandleLookup<V>(t: Tables<V>, phandle: nat, n: nat): (r: Option<nat>)
    requires n <= |t.phandles|
    ensures r.Some? ==> exists k :: 0 <= k < n && IsFirstEntry(t, phandle, k) && t.phandles[k].device == r.value
    ensures r.None? ==> forall k :: 0 <= k < n ==> t.phandles[k].phandle != phandle
  {
    if n == 0 then None
    else
      match PhandleLookup(t, phandle, n - 1)
      case Some(d) => Some(d)
      case None =>
        assert t.phandles[n - 1].phandle == phandle ==> IsFirstEntry(t, phandle, n - 1);
        if t.phandles[n - 1].phandle == phandle then Some(t.phandles[n - 1].device) else None
  }

  function DeviceByPhandle<V>(t: Tables<V>, phandle: nat): Option<nat>
    requires t.Valid()
  {
    PhandleLookup(t, phandle, t.phandleCount)
  }

  lemma {:induction false} PhandleFound<V>(t: Tables<V>, phandle: nat, n: nat, k: nat)
    requires k < n <= |t.phandles| && t.phandles[k].phandle == phandle
    requires forall j :: 0 <= j < k ==> t.phandles[j].phandle != phandle
    ensures PhandleLookup(t, phandle, n) == Some(t.phandles[k].device)
  {
    if k < n - 1 {
      PhandleFound(t, phandle, n - 1, k);
    }
  }

  /** `r` is the device of the first of the registered entries with that
      phandle, and None when no registered entry has it. */
  ghost predicate NamesDevice<V>(t: Tables<V>, phandle: nat, r: Option<nat>)
    requires t.Valid()
  {
    match r
    case None => forall k :: 0 <= k < t.phandleCount ==> t.phandles[k].phandle != phandle
    case Some(d) => exists k :: 0 <= k < t.phandleCount && IsFirstEntry(t, phandle, k) && t.phandles[k].device == d
  }

  /** At most one result is named. */
  lemma NamesOneDevice<V>(t: Tables<V>, phandle: nat, r: Option<nat>, r': Option<nat>)
    requires t.Valid() && NamesDevice(t, phandle, r) && NamesDevice(t, phandle, r')
    ensures r == r'
  {
    if r.Some? && r'.Some? {
      var k :| 0 <= k < t.phandleCount && IsFirstEntry(t, phandle, k) && t.phandles[k].device == r.value;
      var k' :| 0 <= k' < t.phandleCount && IsFirstEntry(t, phandle, k') && t.phandles[k'].device == r'.value;
      assert k == k';
    }
  }

  lemma DeviceByPhandleMeaning<V>(t: Tables<V>, phandle: nat)
    requires t.Valid()
    ensures NamesDevice(t, phandle, DeviceByPhandle(t, phandle))
  {
    var r := PhandleLookup(t, phandle, t.phandleCount);
  }

  method FindDeviceByPhandle(dt: DeviceTree, phandle: nat) returns (r: Option<nat>)
    requires dt.Valid()
    ensures r == DeviceByPhandle(dt.Snapshot(), phandle)
    ensures NamesDevice(dt.Snapshot(), phandle, r)
  {
    DeviceByPhandleMeaning(dt.Snapshot(), phandle);
    var i := 0;
    while i < dt.phandleCount
      invariant i <= dt.phandleCount
      invariant forall k :: 0 <= k < i ==> dt.phandles[k].phandle != phandle
    {
      if dt.phandles[i].phandle == phandle {
        PhandleFound(dt.Snapshot(), phandle, dt.phandleCount, i);
        return Some(dt.phandles[i].device);
      }
      i := i + 1;
    }
    r := None;
  }

  /** The first cell of a property's value. */
  function ReadValue(blob: seq<Byte>, p: Property<nat>): Outcome<nat> {
    match p.value
    case None => Fault
    case Some(at) => TryReadCell(blob, at)
  }

  lemma ReadValueInside(blob: seq<Byte>, p: Property<nat>)
    requires ValueInside(blob, p) && p.name != []
    ensures p.value.Some? && p.value.value + 4 <= |blob| && ReadValue(blob, p) == Ok(ReadCell(blob, p.value.value))
  {
  }

  ghost predicate InTable<V>(t: Tables<V>, at: Option<nat>) {
    at.Some? ==> at.value < t.deviceCount
  }

  /** The nodes from `at` up to a root. */
  ghost function Path<V>(t: Tables<V>, at: Option<nat>): (path: seq<nat>)
    requires Linked(t) && InTable(t, at)
    ensures forall k :: 0 <= k < |path| ==> path[k] < t.deviceCount
    decreases if at.Some? then at.value + 1 else 0
  {
    match at
    case None => []
    case Some(i) => [i] + Path(t, t.devices[i].parent)
  }

  /** The path follows parent links from `at` to a root, through ever smaller indices. */
  lemma {:induction false} PathFollowsLinks<V>(t: Tables<V>, at: Option<nat>)
    requires Linked(t) && InTable(t, at)
    ensures var p := Path(t, at);
      && (at.None? <==> p == []) && (at.Some? ==> p[0] == at.value)
      && (forall k :: 1 <= k < |p| ==> t.devices[p[k - 1]].parent == Some(p[k]) && p[k] < p[k - 1])
      && (p != [] ==> t.devices[p[|p| - 1]].parent == None)
    decreases if at.Some? then at.value + 1 else 0
  {
    if at.Some? {
      PathFollowsLinks(t, t.devices[at.value].parent);
    }
  }

  const INTERRUPT_PARENT := "interrupt-parent"

  /** find_interrupt_parent, from the device's parent pointer `at`. */
  ghost function InterruptParent(t: Tables<nat>, blob: seq<Byte>, at: Option<nat>): Outcome<Option<nat>>
    requires Linked(t) && InTable(t, at)
    decreases if at.Some? then at.value + 1 else 0
  {
    match at
    case None => Ok(None)
    case Some(i) =>
      match Find(t.devices[i], INTERRUPT_PARENT)
      case None => InterruptParent(t, blob, t.devices[i].parent)
      case Some(p) =>
        match ReadValue(blob, p)
        case Ok(phandle) => Ok(DeviceByPhandle(t, phandle))
        case _ => Fault
  }

  /** The walk up the tree. Every link leads to a smaller index, so it ends. */
  method FindInterruptParent(dt: DeviceTree, blob: seq<Byte>, parent: Option<nat>) returns (r: Outcome<Option<nat>>)
    requires dt.Valid() && Linked(dt.Snapshot()) && InTable(dt.Snapshot(), parent)
    ensures r == InterruptParent(dt.Snapshot(), blob, parent)
  {
    var current := parent;
    while current.Some?
      invariant InTable(dt.Snapshot(), current)
      invariant InterruptParent(dt.Snapshot(), blob, parent) == InterruptParent(dt.Snapshot(), blob, current)
      decreases if current.Some? then current.value + 1 else 0
    {
      var dev := dt.devices[current.value];
      var prop := FindProperty<nat>(dev, INTERRUPT_PARENT);
      if prop.Some? {
        if prop.value.value.None? || prop.value.value.value + 4 > |blob| {
          return Fault;
        }
        var d := FindDeviceByPhandle(dt, ReadCell(blob, prop.value.value.value));
        return Ok(d);
      }
      current := dev.parent;
    }
    r := Ok(None);
  }

  ghost predicate HasInterruptParent(t: Tables<nat>, i: nat)
    requires Linked(t) && i < t.deviceCount
  {
    Find(t.devices[i], "interrupt-parent").Some?
  }

  /** Place `k` is the first of the path with a visible "interrupt-parent". */
  ghost predicate FoundFirst(t: Tables<nat>, path: seq<nat>, k: nat)
    requires Linked(t) && forall j :: 0 <= j < |path| ==> path[j] < t.deviceCount
  {
    k < |path| && HasInterruptParent(t, path[k]) && forall j :: 0 <= j < k ==> !HasInterruptParent(t, path[j])
  }

  /** The cell of node `i`'s "interrupt-parent". */
  ghost function ParentPhandle(t: Tables<nat>, blob: seq<Byte>, i: nat): nat
    requires Linked(t) && ValuesInside(blob, t) && i < t.deviceCount && HasInterruptParent(t, i)
  {
    var p := Find(t.devices[i], "interrupt-parent").value;
    ReadValueInside(blob, p);
    ReadCell(blob, p.value.value)
  }

  /** The walk over `path` resolves at place `k` to `r`. */
  ghost predicate ResolvesAt(t: Tables<nat>, blob: seq<Byte>, path: seq<nat>, k: nat, r: Option<nat>)
    requires Linked(t) && ValuesInside(blob, t) && forall j :: 0 <= j < |path| ==> path[j] < t.deviceCount
  {
    FoundFirst(t, path, k) && NamesDevice(t, ParentPhandle(t, blob, path[k]), r)
  }

  /** No node of the path has a visible "interrupt-parent". */
  ghost predicate NoneOnPath(t: Tables<nat>, path: seq<nat>)
    requires Linked(t) && forall j :: 0 <= j < |path| ==> path[j] < t.deviceCount
  {
    forall k :: 0 <= k < |path| ==> !HasInterruptParent(t, path[k])
  }

  lemma ResolvesHere(t: Tables<nat>, blob: seq<Byte>, i: nat)
    requires Linked(t) && ValuesInside(blob, t) && i < t.deviceCount && HasInterruptParent(t, i)
    ensures InterruptParent(t, blob, Some(i)).Ok?
    ensures ResolvesAt(t, blob, Path(t, Some(i)), 0, InterruptParent(t, blob, Some(i)).value)
  {
    hide ValuesInside, DeviceByPhandle, ReadCell, NamesDevice;
    assert Path(t, Some(i))[0] == i;
    ReadParentInside(t, blob, i);
    DeviceByPhandleMeaning(t, ParentPhandle(t, blob, i));
  }

  lemma ReadParentInside(t: Tables<nat>, blob: seq<Byte>, i: nat)
    requires Linked(t) && ValuesInside(blob, t) && i < t.deviceCount && HasInterruptParent(t, i)
    ensures var p := Find(t.devices[i], "interrupt-parent").value;
      && p.value.Some? && p.value.value + 4 <= |blob|
      && ReadValue(blob, p) == Ok(ReadCell(blob, p.value.value))
      && ParentPhandle(t, blob, i) == ReadCell(blob, p.value.value)
  {
    ReadValueInside(blob, Find(t.devices[i], "interrupt-parent").value);
  }

  lemma ResolvesAbove(t: Tables<nat>, blob: seq<Byte>, i: nat, k: nat, r: Option<nat>)
    requires Linked(t) && ValuesInside(blob, t) && i < t.deviceCount && !HasInterruptParent(t, i)
    requires ResolvesAt(t, blob, Path(t, t.devices[i].parent), k, r)
    ensures ResolvesAt(t, blob, Path(t, Some(i)), k + 1, r)
  {
    hide ValuesInside, HasInterruptParent, ParentPhandle, NamesDevice;
    var path, above := Path(t, Some(i)), Path(t, t.devices[i].parent);
    assert path[0] == i && path[1..] == above;
  }

  /** On parsed tables the walk never leaves the blob; it stops at the nearest
      node of the path whose counted properties include "interrupt-parent" and
      returns the device of the first registered entry with that property's
      cell, or None if no node of the path has one. */
  lemma {:induction false} InterruptParentMeaning(t: Tables<nat>, blob: seq<Byte>, at: Option<nat>)
    requires Linked(t) && ValuesInside(blob, t) && InTable(t, at)
    ensures InterruptParent(t, blob, at).Ok?
    ensures var path, r := Path(t, at), InterruptParent(t, blob, at).value;
      (r == None && NoneOnPath(t, path)) || exists k :: ResolvesAt(t, blob, path, k, r)
    decreases if at.Some? then at.value + 1 else 0
  {
    hide ValuesInside, ResolvesAt, NamesDevice;
    if at.Some? {
      var i := at.value;
      if HasInterruptParent(t, i) {
        ResolvesHere(t, blob, i);
      } else {
        var up := t.devices[i].parent;
        InterruptParentMeaning(t, blob, up);
        var path, r := Path(t, at), InterruptParent(t, blob, up).value;
        assert path[0] == i && path[1..] == Path(t, up);
        if k :| ResolvesAt(t, blob, Path(t, up), k, r) {
          ResolvesAbove(t, blob, i, k, r);
        }
      }
    }
  }

  /** ... and that determines it. */
  lemma InterruptParentIs(t: Tables<nat>, blob: seq<Byte>, at: Option<nat>, k: nat, r: Option<nat>)
    requires Linked(t) && ValuesInside(blob, t) && InTable(t, at) && ResolvesAt(t, blob, Path(t, at), k, r)
    ensures InterruptParent(t, blob, at) == Ok(r)
  {
    hide ValuesInside, InterruptParent, Path, NamesDevice, HasInterruptParent, ParentPhandle;
    InterruptParentMeaning(t, blob, at);
    var r' := InterruptParent(t, blob, at).value;
    if k' :| ResolvesAt(t, blob, Path(t, at), k', r') {
      assert k' == k;
      NamesOneDevice(t, ParentPhandle(t, blob, Path(t, at)[k]), r, r');
    }
  }
}

/** Which driver is set up for which device, and in what order. */
module Probe {
  import opened Bytes
  import opened DeviceTable
  import opened Fdt
  import opened Lookup
  import opened Compatible

  datatype DriverKind = GicV3 | Pl011 | ArchTimer

  const GIC_COMPATIBLE := "arm,gic-v3"
  const PL011_COMPATIBLE := "arm,pl011"
  const TIMER_COMPATIBLE := "arm,armv7-timer"

  /** The match table. */
  const CONFIGURED_DEVICES: seq<(string, DriverKind)> := [
    (GIC_COMPATIBLE, GicV3), (PL011_COMPATIBLE, Pl011), (TIMER_COMPATIBLE, ArchTimer)]

  /** The first table entry whose string is in the value. */
  ghost function FirstMatch(v: seq<Byte>): Option<DriverKind> {
    if Matches(v, GIC_COMPATIBLE) then Some(GicV3)
    else if Matches(v, PL011_COMPATIBLE) then Some(Pl011)
    else if Matches(v, TIMER_COMPATIBLE) then Some(ArchTimer)
    else None
  }

  /** The drivers by their strings, the interrupt controller's before the UART's
      before the timer's. */
  lemma DriverStrings(v: seq<Byte>)
    ensures FirstMatch(v) == Some(GicV3) <==> Matches(v, "arm,gic-v3")
    ensures FirstMatch(v) == Some(Pl011) <==> Matches(v, "arm,pl011") && !Matches(v, "arm,gic-v3")
    ensures FirstMatch(v) == Some(ArchTimer) <==>
      Matches(v, "arm,armv7-timer") && !Matches(v, "arm,pl011") && !Matches(v, "arm,gic-v3")
  {
  }

  /** The bytes of a property's value. */
  function ValueOf(blob: seq<Byte>, p: Property<nat>): seq<Byte> {
    match p.value
    case None => []
    case Some(at) => if at + p.len <= |blob| then blob[at..at + p.len] else []
  }

  /** A table whose lookups stay within the property arrays. */
  ghost predicate Counted(t: Tables<nat>) {
    t.Valid() && forall i :: 0 <= i < t.deviceCount ==> t.devices[i].propCount <= MAX_PROPS
  }

  /** The value of device `i`'s "compatible" property, if it is found. */
  ghost function CompatibleOf(t: Tables<nat>, blob: seq<Byte>, i: nat): Option<seq<Byte>>
    requires Counted(t) && i < t.deviceCount
  {
    match Find(t.devices[i], "compatible")
    case None => None
    case Some(p) => Some(ValueOf(blob, p))
  }

  ghost predicate IsGic(t: Tables<nat>, blob: seq<Byte>, i: nat)
    requires Counted(t) && i < t.deviceCount
  {
    var v := CompatibleOf(t, blob, i);
    v.Some? && Matches(v.value, GIC_COMPATIBLE)
  }

  /** The driver for device `i`, if any. */
  ghost function DriverOf(t: Tables<nat>, blob: seq<Byte>, i: nat): Option<DriverKind>
    requires Counted(t) && i < t.deviceCount
  {
    match CompatibleOf(t, blob, i)
    case None => None
    case Some(v) => FirstMatch(v)
  }

  datatype SetupCall = SetupCall(device: nat, driver: DriverKind)

  /** What one pass, the one for the GICs or the one for the others, does with device `i`. */
  ghost function Selected(t: Tables<nat>, blob: seq<Byte>, gic: bool, i: nat): Option<DriverKind>
    requires Counted(t) && i < t.deviceCount
  {
    if gic <==> IsGic(t, blob, i) then DriverOf(t, blob, i) else None
  }

  /** The calls of one pass over the first `n` devices. */
  ghost function Pass(t: Tables<nat>, blob: seq<Byte>, gic: bool, n: nat): seq<SetupCall>
    requires Counted(t) && n <= t.deviceCount
  {
    if n == 0 then []
    else
      Pass(t, blob, gic, n - 1) +
      match Selected(t, blob, gic, n - 1) { case Some(d) => [SetupCall(n - 1, d)] case None => [] }
  }

  /** The setup calls that init_devices makes. */
  ghost function Trace(t: Tables<nat>, blob: seq<Byte>): seq<SetupCall>
    requires Counted(t)
  {
    Pass(t, blob, true, t.deviceCount) + Pass(t, blob, false, t.deviceCount)
  }

  /** The driver a device gets: first match in table order. */
  method SelectDriver(v: seq<Byte>) returns (r: Option<DriverKind>)
    ensures r == FirstMatch(v)
  {
    var i := 0;
    while i < |CONFIGURED_DEVICES|
      invariant 0 <= i <= 3
      invariant forall k :: 0 <= k < i ==> !Matches(v, CONFIGURED_DEVICES[k].0)
    {
      var found := CompatibleMatches(v, CONFIGURED_DEVICES[i].0);
      if found {
        assert i > 0 ==> !Matches(v, CONFIGURED_DEVICES[0].0);
        assert i > 1 ==> !Matches(v, CONFIGURED_DEVICES[1].0);
        return Some(CONFIGURED_DEVICES[i].1);
      }
      i := i + 1;
    }
    assert !Matches(v, CONFIGURED_DEVICES[0].0) && !Matches(v, CONFIGURED_DEVICES[1].0)
      && !Matches(v, CONFIGURED_DEVICES[2].0);
    r := None;
  }

  /** Whether one pass of init_devices sets up a device, and with which driver. */
  method ProbeDevice(dt: DeviceTree, blob: seq<Byte>, i: nat, gic: bool) returns (r: Option<DriverKind>)
    requires dt.Valid() && i < dt.deviceCount && Counted(dt.Snapshot())
    ensures r == Selected(dt.Snapshot(), blob, gic, i)
  {
    var p := FindProperty<nat>(dt.devices[i], "compatible");
    if p.None? {
      return None;
    }
    var v := ValueOf(blob, p.value);
    var isGic := CompatibleMatches(v, GIC_COMPATIBLE);
    if isGic != gic {
      return None;
    }
    r := SelectDriver(v);
  }

  // ---------- What the trace contains ----------

  /** A pass sets up exactly the devices it is for, each with its driver. */
  lemma {:induction false} PassMembers(t: Tables<nat>, blob: seq<Byte>, gic: bool, n: nat, call: SetupCall)
    requires Counted(t) && n <= t.deviceCount
    ensures call in Pass(t, blob, gic, n) <==>
      call.device < n && DriverOf(t, blob, call.device) == Some(call.driver) && (gic <==> IsGic(t, blob, call.device))
  {
    hide IsGic, DriverOf;
    if n > 0 {
      PassMembers(t, blob, gic, n - 1, call);
    }
  }

  ghost predicate Increasing(calls: seq<SetupCall>, limit: nat) {
    && (forall k :: 0 <= k < |calls| ==> calls[k].device < limit)
    && (forall j, k :: 0 <= j < k < |calls| ==> calls[j].device < calls[k].device)
  }

  lemma IncreasingAppend(calls: seq<SetupCall>, limit: nat, c: SetupCall)
    requires Increasing(calls, limit) && c.device == limit
    ensures Increasing(calls + [c], limit + 1)
  {
  }

  /** ... in table order, so no device twice. */
  lemma {:induction false} PassOrdered(t: Tables<nat>, blob: seq<Byte>, gic: bool, n: nat)
    requires Counted(t) && n <= t.deviceCount
    ensures Increasing(Pass(t, blob, gic, n), n)
  {
    hide IsGic, DriverOf;
    if n > 0 {
      PassOrdered(t, blob, gic, n - 1);
      var p, q := Pass(t, blob, gic, n), Pass(t, blob, gic, n - 1);
      if |p| > |q| {
        IncreasingAppend(q, n - 1, p[|q|]);
      } else {
        assert p == q;
      }
    }
  }

  /** A device compatible with the GIC gets the GIC driver, and no other device does. */
  lemma GicDriverForGics(t: Tables<nat>, blob: seq<Byte>, i: nat)
    requires Counted(t) && i < t.deviceCount
    ensures IsGic(t, blob, i) <==> DriverOf(t, blob, i) == Some(GicV3)
  {
  }

  /** Initialisation trace: first every device compatible with the GIC, in
      table order, with the GIC driver; then every other device with a matching
      driver, in table order; each exactly once, and no other device at all. */
  lemma TraceMeaning(t: Tables<nat>, blob: seq<Byte>)
    requires Counted(t)
    ensures var tr, gics := Trace(t, blob), |Pass(t, blob, true, t.deviceCount)|;
      && gics <= |tr|
      && (forall k :: 0 <= k < |tr| ==>
            tr[k].device < t.deviceCount && DriverOf(t, blob, tr[k].device) == Some(tr[k].driver))
      && (forall k :: 0 <= k < |tr| ==> (k < gics <==> tr[k].driver == GicV3))
      && (forall j, k :: 0 <= j < k < gics || gics <= j < k < |tr| ==> tr[j].device < tr[k].device)
      && (forall j, k :: 0 <= j < k < |tr| ==> tr[j].device != tr[k].device)
      && (forall i :: 0 <= i < t.deviceCount && DriverOf(t, blob, i).Some? ==>
            SetupCall(i, DriverOf(t, blob, i).value) in tr)
  {
    hide IsGic, DriverOf, Pass;
    var n := t.deviceCount;
    var first, second, tr := Pass(t, blob, true, n), Pass(t, blob, false, n), Trace(t, blob);
    PassOrdered(t, blob, true, n);
    PassOrdered(t, blob, false, n);
    forall k | 0 <= k < |tr|
      ensures tr[k].device < n && DriverOf(t, blob, tr[k].device) == Some(tr[k].driver)
      ensures k < |first| <==> IsGic(t, blob, tr[k].device)
      ensures k < |first| <==> tr[k].driver == GicV3
    {
      if k < |first| {
        assert tr[k] == first[k] && tr[k] in first;
      } else {
        assert tr[k] == second[k - |first|] && tr[k] in second;
      }
      PassMembers(t, blob, k < |first|, n, tr[k]);
      GicDriverForGics(t, blob, tr[k].device);
    }
    forall j, k | |first| <= j < k < |tr| ensures tr[j].device < tr[k].device {
      assert tr[j] == second[j - |first|] && tr[k] == second[k - |first|];
    }
    forall i | 0 <= i < n && DriverOf(t, blob, i).Some? ensures SetupCall(i, DriverOf(t, blob, i).value) in tr {
      PassMembers(t, blob, IsGic(t, blob, i), n, SetupCall(i, DriverOf(t, blob, i).value));
    }
  }
}

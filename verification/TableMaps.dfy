/** Changing the representation of property values commutes with the parser:
    tokens act the same on pointers as on the bytes they point to. */
module TableMaps {
  import opened Bytes
  import opened DeviceTable

  function MapProperty<V, W>(f: (V, nat) -> W, p: Property<V>): Property<W> {
    Property(p.name, match p.value { case None => None case Some(v) => Some(f(v, p.len)) }, p.len)
  }

  function MapProperties<V, W>(f: (V, nat) -> W, ps: seq<Property<V>>): (r: seq<Property<W>>)
    ensures |r| == |ps|
  {
    seq(|ps|, k requires 0 <= k < |ps| => MapProperty(f, ps[k]))
  }

  function MapDevice<V, W>(f: (V, nat) -> W, d: PlatformDevice<V>): PlatformDevice<W> {
    PlatformDevice(d.parent, d.name, MapProperties(f, d.properties), d.propCount)
  }

  function MapDevices<V, W>(f: (V, nat) -> W, ds: seq<PlatformDevice<V>>): (r: seq<PlatformDevice<W>>)
    ensures |r| == |ds|
  {
    seq(|ds|, k requires 0 <= k < |ds| => MapDevice(f, ds[k]))
  }

  function MapTables<V, W>(f: (V, nat) -> W, t: Tables<V>): Tables<W> {
    Tables(MapDevices(f, t.devices), t.deviceCount, t.phandles, t.phandleCount)
  }

  function MapState<V, W>(f: (V, nat) -> W, s: State<V>): State<W> {
    State(MapTables(f, s.tables), s.stack, s.propId)
  }

  lemma MapValid<V, W>(f: (V, nat) -> W, s: State<V>)
    requires s.Valid()
    ensures MapState(f, s).Valid()
  {
  }

  function MapToken<V, W>(f: (V, nat) -> W, t: Token<V>): Token<W> {
    match t
    case Begin(name) => Begin(name)
    case End => End
    case Prop(name, len, value, phandle) => Prop(name, len, f(value, len), phandle)
    case Nop => Nop
  }

  function MapOutcome<V, W>(f: (V, nat) -> W, r: Outcome<State<V>>): Outcome<State<W>> {
    match r
    case Ok(s) => Ok(MapState(f, s))
    case Panic => Panic
    case Fault => Fault
  }

  lemma MapNewDevice<V, W>(f: (V, nat) -> W, parent: Option<nat>, name: seq<Byte>)
    ensures MapDevice(f, NewDevice(parent, name)) == NewDevice(parent, name)
  {
    assert MapProperties(f, DefaultProperties<V>()) == DefaultProperties<W>();
  }

  lemma MapUpdate<V, W>(f: (V, nat) -> W, ds: seq<PlatformDevice<V>>, i: nat, d: PlatformDevice<V>)
    requires i < |ds|
    ensures MapDevices(f, ds[i := d]) == MapDevices(f, ds)[i := MapDevice(f, d)]
  {
  }

  lemma MapSetProperty<V, W>(f: (V, nat) -> W, t: Tables<V>, d: nat, k: nat, p: Property<V>)
    requires t.Valid() && d < MAX_DEVICES && k < MAX_PROPS
    ensures MapTables(f, t).Valid()
    ensures MapTables(f, SetProperty(t, d, k, p)) == SetProperty(MapTables(f, t), d, k, MapProperty(f, p))
  {
    var dev := t.devices[d];
    assert MapProperties(f, dev.properties[k := p]) == MapProperties(f, dev.properties)[k := MapProperty(f, p)];
    MapUpdate(f, t.devices, d, dev.(properties := dev.properties[k := p]));
  }

  lemma ApplyCommutes<V, W>(f: (V, nat) -> W, t: Token<V>, s: State<V>)
    requires s.Valid()
    ensures MapState(f, s).Valid()
    ensures MapOutcome(f, Apply(t, s)) == Apply(MapToken(f, t), MapState(f, s))
  {
    MapValid(f, s);
    match t
    case Begin(name) =>
      if s.tables.deviceCount < MAX_DEVICES {
        MapNewDevice(f, s.Top(), name);
        MapUpdate(f, s.tables.devices, s.tables.deviceCount, NewDevice(s.Top(), name));
      }
    case End =>
      if s.stack != [] {
        var d := s.stack[|s.stack| - 1];
        MapUpdate(f, s.tables.devices, d, s.tables.devices[d].(propCount := s.propId));
      }
    case Prop(name, len, value, phandle) =>
      if s.stack != [] && s.propId < MAX_PROPS {
        var d := s.stack[|s.stack| - 1];
        var r := RecordPhandle(phandle, d, s.tables);
        if r.Ok? {
          MapSetProperty(f, r.value, d, s.propId, Property(name, Some(value), len));
        }
      }
    case Nop =>
  }
}

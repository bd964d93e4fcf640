/** The flat device table, the phandle table, and what one token of the
    structure block does to them. The representation `V` of a property value is
    left open: the kernel stores a pointer into the blob, while the tree a blob
    encodes has the value's bytes. */
module DeviceTable {
  import opened Bytes

  const MAX_DEVICES: nat := 256
  const MAX_HANDLES: nat := 32
  const MAX_PROPS: nat := 16
  const MAX_DEPTH: nat := 10

  /** `bs` is the ASCII text `s`. */
  predicate TextIs(bs: seq<Byte>, s: string)
    decreases |bs|
  {
    if bs == [] then s == ""
    else s != "" && bs[0] == s[0] as int && TextIs(bs[1..], s[1..])
  }

  /** ... that is, of the same length and with the same characters. */
  lemma {:induction false} TextIsCharacters(bs: seq<Byte>, s: string)
    ensures TextIs(bs, s) <==> |bs| == |s| && forall i :: 0 <= i < |bs| ==> bs[i] == s[i] as int
    decreases |bs|
  {
    if bs != [] && s != "" {
      TextIsCharacters(bs[1..], s[1..]);
      if TextIs(bs, s) {
        forall i | 0 <= i < |bs| ensures bs[i] == s[i] as int {
          assert i > 0 ==> bs[i] == bs[1..][i - 1];
        }
      }
    }
  }

  predicate IsPhandle(name: seq<Byte>) {
    TextIs(name, "phandle")
  }

  /** "phandle" is these seven bytes. */
  lemma PhandleBytes(name: seq<Byte>)
    ensures IsPhandle(name) <==> name == [112, 104, 97, 110, 100, 108, 101]
  {
    hide TextIs;
    TextIsCharacters(name, "phandle");
    var s := "phandle";
    assert s[0] == 'p' && s[1] == 'h' && s[2] == 'a' && s[3] == 'n' && s[4] == 'd' && s[5] == 'l' && s[6] == 'e';
  }

  /** `value` is None for the null pointer of a default property. */
  datatype Property<V> = Property(name: seq<Byte>, value: Option<V>, len: nat)

  /** `parent` is an index into the device table, None for the null pointer. */
  datatype PlatformDevice<V> =
    PlatformDevice(parent: Option<nat>, name: seq<Byte>, properties: seq<Property<V>>, propCount: nat)

  function DefaultProperty<V>(): Property<V> {
    Property([], None, 0)
  }

  function DefaultProperties<V>(): (ps: seq<Property<V>>)
    ensures |ps| == MAX_PROPS
  {
    seq(MAX_PROPS, _ => DefaultProperty())
  }

  function NewDevice<V>(parent: Option<nat>, name: seq<Byte>): PlatformDevice<V> {
    PlatformDevice(parent, name, DefaultProperties(), 0)
  }

  datatype PhandleEntry = PhandleEntry(phandle: nat, device: nat)

  datatype Tables<V> = Tables(
    devices: seq<PlatformDevice<V>>, deviceCount: nat,
    phandles: seq<PhandleEntry>, phandleCount: nat)
  {
    /** The shape Rust's array types guarantee, with the two counts in range. */
    ghost predicate Valid() {
      && |devices| == MAX_DEVICES && deviceCount <= MAX_DEVICES
      && |phandles| == MAX_HANDLES && phandleCount <= MAX_HANDLES
      && forall i :: 0 <= i < |devices| ==> |devices[i].properties| == MAX_PROPS
    }
  }

  /** The parser's variables: the static tables, the depth stack up to
      `stack_depth`, and `prop_id`. */
  datatype State<V> = State(tables: Tables<V>, stack: seq<nat>, propId: nat) {
    ghost predicate Valid() {
      && tables.Valid()
      && |stack| <= MAX_DEPTH
      && forall k :: 0 <= k < |stack| ==> stack[k] < MAX_DEVICES
    }

    function Top(): Option<nat> {
      if stack == [] then None else Some(stack[|stack| - 1])
    }
  }

  /** The cell the parser reads from a property named "phandle", if it is one
      and if the read stays inside the blob. */
  datatype PhandleCell = NotPhandle | Unreadable | Phandle(cell: nat)

  /** One token of the structure block with its operands. */
  datatype Token<V> =
    | Begin(name: seq<Byte>)
    | End
    | Prop(name: seq<Byte>, len: nat, value: V, phandle: PhandleCell)
    | Nop

  function BeginNode<V>(name: seq<Byte>, s: State<V>): (r: Outcome<State<V>>)
    requires s.Valid()
    ensures r.Ok? ==> r.value.Valid()
  {
    var n := s.tables.deviceCount;
    if n >= MAX_DEVICES || |s.stack| >= MAX_DEPTH then Panic
    else Ok(State(
      s.tables.(devices := s.tables.devices[n := NewDevice(s.Top(), name)], deviceCount := n + 1),
      s.stack + [n],
      0))
  }

  function EndNode<V>(s: State<V>): (r: Outcome<State<V>>)
    requires s.Valid()
    ensures r.Ok? ==> r.value.Valid()
  {
    if s.stack == [] then Panic
    else
      var d := s.stack[|s.stack| - 1];
      Ok(s.(
        tables := s.tables.(devices := s.tables.devices[d := s.tables.devices[d].(propCount := s.propId)]),
        stack := s.stack[..|s.stack| - 1]))
  }

  /** Registers a "phandle" property in the phandle table. */
  function RecordPhandle<V>(p: PhandleCell, device: nat, t: Tables<V>): (r: Outcome<Tables<V>>)
    requires t.Valid()
    ensures r.Ok? ==> r.value.Valid() && r.value.devices == t.devices && r.value.deviceCount == t.deviceCount
  {
    match p
    case NotPhandle => Ok(t)
    case Unreadable => Fault
    case Phandle(cell) =>
      if t.phandleCount >= MAX_HANDLES then Panic
      else Ok(t.(
        phandles := t.phandles[t.phandleCount := PhandleEntry(cell, device)],
        phandleCount := t.phandleCount + 1))
  }

  function SetProperty<V>(t: Tables<V>, d: nat, k: nat, p: Property<V>): (r: Tables<V>)
    requires t.Valid() && d < MAX_DEVICES && k < MAX_PROPS
    ensures r.Valid()
  {
    var dev := t.devices[d];
    t.(devices := t.devices[d := dev.(properties := dev.properties[k := p])])
  }

  function AddProperty<V>(name: seq<Byte>, len: nat, value: V, phandle: PhandleCell, s: State<V>)
    : (r: Outcome<State<V>>)
    requires s.Valid()
    ensures r.Ok? ==> r.value.Valid()
  {
    if s.stack == [] then Panic
    else
      var d := s.stack[|s.stack| - 1];
      var t :- RecordPhandle(phandle, d, s.tables);
      if s.propId >= MAX_PROPS then Panic
      else Ok(s.(tables := SetProperty(t, d, s.propId, Property(name, Some(value), len)), propId := s.propId + 1))
  }

  /** The effect of one token. */
  function Apply<V>(t: Token<V>, s: State<V>): (r: Outcome<State<V>>)
    requires s.Valid()
    ensures r.Ok? ==> r.value.Valid()
  {
    match t
    case Begin(name) => BeginNode(name, s)
    case End => EndNode(s)
    case Prop(name, len, value, phandle) => AddProperty(name, len, value, phandle, s)
    case Nop => Ok(s)
  }

  function ApplyAll<V>(ts: seq<Token<V>>, s: State<V>): (r: Outcome<State<V>>)
    requires s.Valid()
    ensures r.Ok? ==> r.value.Valid()
  {
    if ts == [] then Ok(s)
    else
      var s' :- Apply(ts[0], s);
      ApplyAll(ts[1..], s')
  }

  lemma {:induction false} ApplyAllConcat<V>(a: seq<Token<V>>, b: seq<Token<V>>, s: State<V>)
    requires s.Valid()
    ensures ApplyAll(a + b, s) ==
      match ApplyAll(a, s) { case Ok(m) => ApplyAll(b, m) case Panic => Panic case Fault => Fault }
  {
    if a == [] {
      assert a + b == b;
    } else {
      assert (a + b)[0] == a[0] && (a + b)[1..] == a[1..] + b;
      var r := Apply(a[0], s);
      if r.Ok? {
        ApplyAllConcat(a[1..], b, r.value);
      }
    }
  }

  // ---------- What every token stream keeps ----------

  /** Every parent link points backwards, every count is within the property
      array, and every phandle entry names a device that exists. */
  ghost predicate Linked<V>(t: Tables<V>) {
    && t.Valid()
    && (forall i :: 0 <= i < t.deviceCount ==>
          && t.devices[i].propCount <= MAX_PROPS
          && (t.devices[i].parent.Some? ==> t.devices[i].parent.value < i))
    && (forall k :: 0 <= k < t.phandleCount ==> t.phandles[k].device < t.deviceCount)
  }

  /** The stacked nodes are a chain of table entries from a root down: indices
      grow strictly and each node's parent is the entry beneath it. */
  ghost predicate Chain<V>(t: Tables<V>, stack: seq<nat>)
    requires t.Valid()
  {
    && (forall k :: 0 <= k < |stack| ==> stack[k] < t.deviceCount)
    && (forall k, l :: 0 <= k < l < |stack| ==> stack[k] < stack[l])
    && (stack != [] ==> t.devices[stack[0]].parent.None?)
    && (forall k :: 1 <= k < |stack| ==> t.devices[stack[k]].parent == Some(stack[k - 1]))
  }

  ghost predicate Inv<V>(s: State<V>) {
    s.Valid() && Linked(s.tables) && Chain(s.tables, s.stack) && s.propId <= MAX_PROPS
  }

  lemma BeginKeepsInv<V>(name: seq<Byte>, s: State<V>)
    requires Inv(s)
    ensures BeginNode(name, s).Ok? ==> Inv(BeginNode(name, s).value)
  {
  }

  lemma EndKeepsInv<V>(s: State<V>)
    requires Inv(s)
    ensures EndNode(s).Ok? ==> Inv(EndNode(s).value)
  {
    if s.stack != [] {
      var s' := EndNode(s).value;
      forall k | 1 <= k < |s'.stack|
        ensures s'.tables.devices[s'.stack[k]].parent == Some(s'.stack[k - 1])
      {
        assert s'.stack[k] == s.stack[k] && s'.stack[k - 1] == s.stack[k - 1];
      }
    }
  }

  lemma PropKeepsInv<V>(name: seq<Byte>, len: nat, value: V, phandle: PhandleCell, s: State<V>)
    requires Inv(s)
    ensures AddProperty(name, len, value, phandle, s).Ok? ==> Inv(AddProperty(name, len, value, phandle, s).value)
  {
  }

  /** Every token, in every state, keeps the invariant or stops the parser. */
  lemma ApplyKeepsInv<V>(t: Token<V>, s: State<V>)
    requires Inv(s)
    ensures Apply(t, s).Ok? ==> Inv(Apply(t, s).value)
  {
    match t
    case Begin(name) => BeginKeepsInv(name, s);
    case End => EndKeepsInv(s);
    case Prop(name, len, value, phandle) => PropKeepsInv(name, len, value, phandle, s);
    case Nop =>
  }
}

/** Device trees, their token sequence in the structure block, and the device
    table that listing them in preorder should give. */
module FdtTree {
  import opened Bytes
  import opened DeviceTable

  datatype TreeProp = TreeProp(name: seq<Byte>, value: seq<Byte>)

  /** A list of sibling nodes. A device tree is a list with one root. */
  datatype Forest =
    | Leafless
    | Node(name: seq<Byte>, props: seq<TreeProp>, kids: Forest, next: Forest)

  function Size(f: Forest): nat {
    match f
    case Leafless => 0
    case Node(_, _, kids, next) => 1 + Size(kids) + Size(next)
  }

  function Height(f: Forest): nat {
    match f
    case Leafless => 0
    case Node(_, _, kids, next) =>
      var k := 1 + Height(kids);
      if k >= Height(next) then k else Height(next)
  }

  /** No node has more properties than a device has slots. */
  predicate SlotsSuffice(f: Forest) {
    match f
    case Leafless => true
    case Node(_, props, kids, next) => |props| <= 16 && SlotsSuffice(kids) && SlotsSuffice(next)
  }

  /** A phandle is a cell, so its value has at least four bytes. */
  predicate PhandlesAreCells(f: Forest) {
    match f
    case Leafless => true
    case Node(_, props, kids, next) =>
      && (forall i :: 0 <= i < |props| ==> PhandleIsCell(props[i]))
      && PhandlesAreCells(kids) && PhandlesAreCells(next)
  }

  predicate PhandleIsCell(p: TreeProp) {
    !PhandleOf(p).Unreadable?
  }

  // ---------- The token sequence ----------

  function PhandleOf(p: TreeProp): PhandleCell {
    if !IsPhandle(p.name) then NotPhandle
    else if |p.value| >= 4 then Phandle(ReadCell(p.value, 0))
    else Unreadable
  }

  function PropToken(p: TreeProp): Token<seq<Byte>> {
    Prop(p.name, |p.value|, p.value, PhandleOf(p))
  }

  function PropTokens(props: seq<TreeProp>): (ts: seq<Token<seq<Byte>>>) {
    if props == [] then [] else [PropToken(props[0])] + PropTokens(props[1..])
  }

  /** Properties come before subnodes (section 5.4.2 of the Devicetree Specification). */
  function Flatten(f: Forest): seq<Token<seq<Byte>>> {
    match f
    case Leafless => []
    case Node(name, props, kids, next) =>
      [Begin(name)] + (PropTokens(props) + (Flatten(kids) + ([End] + Flatten(next))))
  }

  // ---------- The listing ----------

  function SlotOf(p: TreeProp): Property<seq<Byte>> {
    Property(p.name, Some(p.value), |p.value|)
  }

  function SlotsOf(props: seq<TreeProp>): (ps: seq<Property<seq<Byte>>>)
    ensures |ps| == |props|
  {
    seq(|props|, k requires 0 <= k < |props| => SlotOf(props[k]))
  }

  /** A node's properties in tree order in the first slots, default slots after them. */
  function Slots(props: seq<TreeProp>): (ps: seq<Property<seq<Byte>>>)
    ensures |ps| == 16
  {
    seq(16, k requires 0 <= k => if k < |props| then SlotOf(props[k]) else DefaultProperty())
  }

  /** The number of properties of the last node, in preorder, of a nonempty list. */
  function LastCount(f: Forest): nat
    requires f.Node?
  {
    if f.next.Node? then LastCount(f.next)
    else if f.kids.Node? then LastCount(f.kids)
    else |f.props|
  }

  /** The count that the parser records for the first node of `f`. */
  function RecordedCount(f: Forest): nat
    requires f.Node?
  {
    if f.kids.Node? then LastCount(f.kids) else |f.props|
  }

  /** The preorder listing of `f` when its first node is entry `base` of the table. */
  function Listing(f: Forest, parent: Option<nat>, base: nat): (l: seq<PlatformDevice<seq<Byte>>>)
    ensures |l| == Size(f)
    ensures forall i :: 0 <= i < |l| ==> |l[i].properties| == MAX_PROPS
  {
    match f
    case Leafless => []
    case Node(name, props, kids, next) =>
      [PlatformDevice(parent, name, Slots(props), RecordedCount(f))]
      + Listing(kids, Some(base), base + 1)
      + Listing(next, parent, base + 1 + Size(kids))
  }

  function PropPhandle(p: TreeProp, device: nat): seq<PhandleEntry> {
    match PhandleOf(p)
    case Phandle(cell) => [PhandleEntry(cell, device)]
    case _ => []
  }

  function PropPhandles(props: seq<TreeProp>, device: nat): seq<PhandleEntry> {
    if props == [] then [] else PropPhandle(props[0], device) + PropPhandles(props[1..], device)
  }

  /** The phandle entries of `f` in the order the properties appear. */
  function Phandles(f: Forest, base: nat): seq<PhandleEntry> {
    match f
    case Leafless => []
    case Node(_, props, kids, next) =>
      PropPhandles(props, base) + Phandles(kids, base + 1) + Phandles(next, base + 1 + Size(kids))
  }

  /** `xs` with the elements from `at` on replaced by those of `ys`. */
  function Splice<T>(xs: seq<T>, at: nat, ys: seq<T>): (r: seq<T>)
    requires at + |ys| <= |xs|
    ensures |r| == |xs|
  {
    xs[..at] + ys + xs[at + |ys|..]
  }

  lemma SpliceSplice<T>(xs: seq<T>, at: nat, ys: seq<T>, zs: seq<T>)
    requires at + |ys| + |zs| <= |xs|
    ensures Splice(Splice(xs, at, ys), at + |ys|, zs) == Splice(xs, at, ys + zs)
  {
  }

  lemma SpliceOne<T>(xs: seq<T>, at: nat, x: T)
    requires at < |xs|
    ensures Splice(xs, at, [x]) == xs[at := x]
  {
  }

  lemma SpliceNone<T>(xs: seq<T>, at: nat)
    requires at <= |xs|
    ensures Splice(xs, at, []) == xs
  {
  }

  // ---------- Running the parser on a tree's tokens ----------

  /** Room for `f` in the device table, the depth stack, the property arrays and the phandle table. */
  predicate Fits(f: Forest, depth: nat, devices: nat, phandles: nat) {
    && devices + Size(f) <= 256
    && depth + Height(f) <= 10
    && SlotsSuffice(f)
    && phandles + |Phandles(f, devices)| <= 32
  }

  ghost predicate FitsIn(f: Forest, s: State<seq<Byte>>) {
    Fits(f, |s.stack|, s.tables.deviceCount, s.tables.phandleCount)
  }

  /** The state after `f`'s tokens: its listing and phandles appended to the tables. */
  ghost function Appended(f: Forest, s: State<seq<Byte>>): State<seq<Byte>>
    requires s.Valid() && FitsIn(f, s)
  {
    var t, n := s.tables, s.tables.deviceCount;
    var ps := Phandles(f, n);
    State(
      Tables(Splice(t.devices, n, Listing(f, s.Top(), n)), n + Size(f),
             Splice(t.phandles, t.phandleCount, ps), t.phandleCount + |ps|),
      s.stack,
      if f.Node? then LastCount(f) else s.propId)
  }

  ghost predicate RoomForProps(props: seq<TreeProp>, s: State<seq<Byte>>)
    requires s.stack != []
  {
    && s.propId + |props| <= MAX_PROPS
    && s.tables.phandleCount + |PropPhandles(props, s.Top().value)| <= MAX_HANDLES
  }

  /** The state after a node's property tokens, with the node open on top of the stack. */
  ghost function WithProps(props: seq<TreeProp>, s: State<seq<Byte>>): State<seq<Byte>>
    requires s.Valid() && s.stack != [] && RoomForProps(props, s)
  {
    var t, d := s.tables, s.Top().value;
    var ps := PropPhandles(props, d);
    State(
      t.(devices := t.devices[d := t.devices[d].(properties := Splice(t.devices[d].properties, s.propId, SlotsOf(props)))],
         phandles := Splice(t.phandles, t.phandleCount, ps), phandleCount := t.phandleCount + |ps|),
      s.stack,
      s.propId + |props|)
  }

  lemma WithNoProps(s: State<seq<Byte>>)
    requires s.Valid() && s.stack != [] && RoomForProps([], s)
    ensures WithProps([], s) == s
  {
    var d := s.Top().value;
    assert Splice(s.tables.devices[d].properties, s.propId, SlotsOf([])) == s.tables.devices[d].properties;
    assert Splice(s.tables.phandles, s.tables.phandleCount, []) == s.tables.phandles;
    assert s.tables.devices[d := s.tables.devices[d]] == s.tables.devices;
  }

  lemma WithPropsCons(props: seq<TreeProp>, s: State<seq<Byte>>)
    requires s.Valid() && s.stack != [] && props != [] && PhandleIsCell(props[0])
    requires Apply(PropToken(props[0]), s).Ok?
    ensures var s' := Apply(PropToken(props[0]), s).value;
      s'.stack == s.stack && (RoomForProps(props, s) <==> RoomForProps(props[1..], s'))
      && (RoomForProps(props, s) ==> WithProps(props, s) == WithProps(props[1..], s'))
  {
    hide TextIs, IsPhandle, ReadCell, BigEndian, Slots, Splice;
    var s' := Apply(PropToken(props[0]), s).value;
    var d := s.Top().value;
    if RoomForProps(props, s) {
      var first, rest := SlotsOf([props[0]]), SlotsOf(props[1..]);
      var was := s.tables.devices[d].properties;
      SpliceOne(was, s.propId, SlotOf(props[0]));
      assert first == [SlotOf(props[0])];
      assert s'.tables.devices[d].properties == Splice(was, s.propId, first);
      SpliceSplice(was, s.propId, first, rest);
      assert first + rest == SlotsOf(props);
      var handles := PropPhandle(props[0], d);
      SpliceNone(s.tables.phandles, s.tables.phandleCount);
      if handles != [] {
        SpliceOne(s.tables.phandles, s.tables.phandleCount, handles[0]);
        assert handles == [handles[0]];
      }
      assert s'.tables.phandles == Splice(s.tables.phandles, s.tables.phandleCount, handles);
      SpliceSplice(s.tables.phandles, s.tables.phandleCount, handles, PropPhandles(props[1..], d));
    }
  }

  lemma {:induction false} RunProps(props: seq<TreeProp>, s: State<seq<Byte>>)
    requires s.Valid() && s.stack != [] && s.propId <= MAX_PROPS
    requires forall i :: 0 <= i < |props| ==> PhandleIsCell(props[i])
    ensures ApplyAll(PropTokens(props), s) == if RoomForProps(props, s) then Ok(WithProps(props, s)) else Panic
  {
    if props == [] {
      WithNoProps(s);
    } else {
      var ts := PropTokens(props);
      assert ts[0] == PropToken(props[0]) && ts[1..] == PropTokens(props[1..]);
      if Apply(ts[0], s).Ok? {
        WithPropsCons(props, s);
        RunProps(props[1..], Apply(ts[0], s).value);
      }
    }
  }

  /** Writing an entry, its subtree after it, the entry again and then its
      siblings is the same as writing all of them in order. */
  lemma SpliceNode<T>(xs: seq<T>, n: nat, before: T, after: T, kids: seq<T>, next: seq<T>)
    requires n + 1 + |kids| + |next| <= |xs|
    ensures Splice(Splice(xs[n := before], n + 1, kids)[n := after], n + 1 + |kids|, next)
         == Splice(xs, n, [after] + kids + next)
  {
  }

  /** Room for the first node of `f` alone. */
  predicate NodeFits(f: Forest, depth: nat, n: nat, ph: nat)
    requires f.Node?
  {
    && n < MAX_DEVICES && depth < MAX_DEPTH && |f.props| <= MAX_PROPS
    && ph + |PropPhandles(f.props, n)| <= MAX_HANDLES
  }

  lemma FitsNode(f: Forest, depth: nat, n: nat, ph: nat)
    requires f.Node? && depth <= MAX_DEPTH && n <= MAX_DEVICES && ph <= MAX_HANDLES
    ensures var ph1 := ph + |PropPhandles(f.props, n)|;
      Fits(f, depth, n, ph) <==>
        && NodeFits(f, depth, n, ph)
        && Fits(f.kids, depth + 1, n + 1, ph1)
        && Fits(f.next, depth, n + 1 + Size(f.kids), ph1 + |Phandles(f.kids, n + 1)|)
  {
    hide TextIs, IsPhandle, PropPhandles, PropPhandle, PhandleOf;
  }

  ghost predicate NodeFitsIn(f: Forest, s: State<seq<Byte>>)
    requires f.Node?
  {
    NodeFits(f, |s.stack|, s.tables.deviceCount, s.tables.phandleCount)
  }

  /** The table entry of the first node of `f`, with property count `count`. */
  ghost function Entry(f: Forest, parent: Option<nat>, count: nat): PlatformDevice<seq<Byte>>
    requires f.Node?
  {
    PlatformDevice(parent, f.name, Slots(f.props), count)
  }

  /** The state with the first node of `f` open and its properties stored. */
  ghost function Opened(f: Forest, s: State<seq<Byte>>): (r: State<seq<Byte>>)
    requires f.Node? && s.Valid() && NodeFitsIn(f, s)
    ensures r.Valid()
  {
    var n, t := s.tables.deviceCount, s.tables;
    var ps := PropPhandles(f.props, n);
    State(
      Tables(t.devices[n := Entry(f, s.Top(), 0)], n + 1,
             Splice(t.phandles, t.phandleCount, ps), t.phandleCount + |ps|),
      s.stack + [n],
      |f.props|)
  }

  lemma WithPropsIsOpened(f: Forest, s: State<seq<Byte>>)
    requires f.Node? && s.Valid() && NodeFitsIn(f, s)
    ensures var s' := Apply(Begin(f.name), s);
      s'.Ok? && RoomForProps(f.props, s'.value) && WithProps(f.props, s'.value) == Opened(f, s)
  {
    var s' := Apply(Begin(f.name), s).value;
    var n := s.tables.deviceCount;
    assert Splice(s'.tables.devices[n].properties, 0, SlotsOf(f.props)) == Slots(f.props);
    assert WithProps(f.props, s').tables.devices == Opened(f, s).tables.devices;
  }

  lemma OpenNode(f: Forest, s: State<seq<Byte>>)
    requires f.Node? && s.Valid() && PhandlesAreCells(f)
    ensures ApplyAll([Begin(f.name)] + PropTokens(f.props), s) ==
            if NodeFitsIn(f, s) then Ok(Opened(f, s)) else Panic
  {
    var ts := [Begin(f.name)] + PropTokens(f.props);
    assert ts[0] == Begin(f.name) && ts[1..] == PropTokens(f.props);
    var r := Apply(ts[0], s);
    if r.Ok? {
      RunProps(f.props, r.value);
      if NodeFitsIn(f, s) {
        WithPropsIsOpened(f, s);
      }
    }
  }

  /** The state once the first node of `f` has been closed after its subtree. */
  ghost function Closed(f: Forest, s: State<seq<Byte>>): State<seq<Byte>>
    requires f.Node? && s.Valid() && NodeFitsIn(f, s) && FitsIn(f.kids, Opened(f, s))
  {
    var s3 := Appended(f.kids, Opened(f, s));
    var n := s.tables.deviceCount;
    State(s3.tables.(devices := s3.tables.devices[n := Entry(f, s.Top(), RecordedCount(f))]), s.stack, RecordedCount(f))
  }

  lemma CloseNode(f: Forest, s: State<seq<Byte>>)
    requires f.Node? && s.Valid() && NodeFitsIn(f, s) && FitsIn(f.kids, Opened(f, s))
    requires Appended(f.kids, Opened(f, s)).Valid()
    ensures Apply(End, Appended(f.kids, Opened(f, s))) == Ok(Closed(f, s)) && Closed(f, s).Valid()
    ensures ApplyAll([End] + Flatten(f.next), Appended(f.kids, Opened(f, s))) ==
            ApplyAll(Flatten(f.next), Closed(f, s))
  {
    var s3, n := Appended(f.kids, Opened(f, s)), s.tables.deviceCount;
    assert s3.stack[..|s3.stack| - 1] == s.stack;
    assert s3.tables.devices[n] == Entry(f, s.Top(), 0);
    var rest := [End] + Flatten(f.next);
    assert rest[0] == End && rest[1..] == Flatten(f.next);
  }

  lemma AppendPhandles(f: Forest, s: State<seq<Byte>>)
    requires f.Node? && s.Valid() && FitsIn(f, s) && NodeFitsIn(f, s) && FitsIn(f.kids, Opened(f, s))
    requires Closed(f, s).Valid() && FitsIn(f.next, Closed(f, s))
    ensures var a, b := Appended(f.next, Closed(f, s)).tables, Appended(f, s).tables;
      a.phandles == b.phandles && a.phandleCount == b.phandleCount
  {
    hide Listing, Slots, Entry, TextIs, PropPhandles, Flatten, LastCount, RecordedCount, Size;
    var n, t := s.tables.deviceCount, s.tables;
    var ps, pk, pn := PropPhandles(f.props, n), Phandles(f.kids, n + 1), Phandles(f.next, n + 1 + Size(f.kids));
    SpliceSplice(t.phandles, t.phandleCount, ps, pk);
    SpliceSplice(t.phandles, t.phandleCount, ps + pk, pn);
  }

  lemma AppendDevices(f: Forest, s: State<seq<Byte>>)
    requires f.Node? && s.Valid() && FitsIn(f, s) && NodeFitsIn(f, s) && FitsIn(f.kids, Opened(f, s))
    requires Closed(f, s).Valid() && FitsIn(f.next, Closed(f, s))
    ensures var a, b := Appended(f.next, Closed(f, s)).tables, Appended(f, s).tables;
      a.devices == b.devices && a.deviceCount == b.deviceCount
  {
    hide TextIs, PropPhandles, PropPhandle, Slots, Flatten, LastCount, RecordedCount, Size, Phandles, Height, SlotsSuffice,
      NodeFits, SlotsOf;
    var n := s.tables.deviceCount;
    assert Closed(f, s).Top() == s.Top();
    SpliceNode(s.tables.devices, n, Entry(f, s.Top(), 0), Entry(f, s.Top(), RecordedCount(f)),
      Listing(f.kids, Some(n), n + 1), Listing(f.next, s.Top(), n + 1 + Size(f.kids)));
  }

  /** Closing the first node and appending its siblings is appending the whole list. */
  lemma AppendNode(f: Forest, s: State<seq<Byte>>)
    requires f.Node? && s.Valid() && FitsIn(f, s) && NodeFitsIn(f, s) && FitsIn(f.kids, Opened(f, s))
    requires Closed(f, s).Valid() && FitsIn(f.next, Closed(f, s))
    ensures Appended(f.next, Closed(f, s)) == Appended(f, s)
  {
    AppendPhandles(f, s);
    AppendDevices(f, s);
  }

  /** On the tokens of any tree the parser appends the tree's preorder listing
      and phandles when they fit, and panics when they do not. */
  lemma {:induction false} RunForest(f: Forest, s: State<seq<Byte>>)
    requires s.Valid() && PhandlesAreCells(f)
    ensures ApplyAll(Flatten(f), s) == if FitsIn(f, s) then Ok(Appended(f, s)) else Panic
    ensures FitsIn(f, s) ==> Appended(f, s).Valid()
    decreases f, 1
  {
    match f
    case Leafless =>
      AppendNothing(s);
    case Node(name, props, kids, next) =>
      var head, tail := [Begin(name)] + PropTokens(props), Flatten(kids) + ([End] + Flatten(next));
      assert Flatten(f) == head + tail;
      ApplyAllConcat(head, tail, s);
      OpenNode(f, s);
      FitsNode(f, |s.stack|, s.tables.deviceCount, s.tables.phandleCount);
      if NodeFitsIn(f, s) {
        RunTail(f, s);
      }
  }

  lemma AppendNothing(s: State<seq<Byte>>)
    requires s.Valid()
    ensures FitsIn(Leafless, s) && Appended(Leafless, s) == s
  {
    var t := s.tables;
    assert Splice(t.devices, t.deviceCount, []) == t.devices && Splice(t.phandles, t.phandleCount, []) == t.phandles;
  }

  lemma FitsTail(f: Forest, s: State<seq<Byte>>)
    requires f.Node? && s.Valid() && NodeFitsIn(f, s)
    ensures FitsIn(f, s) <==> FitsIn(f.kids, Opened(f, s)) && FitsIn(f.next, Closed(f, s))
  {
    hide Listing, TextIs, IsPhandle, PropPhandles, Splice, Slots;
    var n := s.tables.deviceCount;
    FitsNode(f, |s.stack|, n, s.tables.phandleCount);
    var s2 := Opened(f, s);
    assert |s2.stack| == |s.stack| + 1 && s2.tables.deviceCount == n + 1;
    assert s2.tables.phandleCount == s.tables.phandleCount + |PropPhandles(f.props, n)|;
  }

  lemma {:induction false} RunTail(f: Forest, s: State<seq<Byte>>)
    requires f.Node? && s.Valid() && PhandlesAreCells(f) && NodeFitsIn(f, s)
    ensures ApplyAll(Flatten(f.kids) + ([End] + Flatten(f.next)), Opened(f, s)) ==
            if FitsIn(f, s) then Ok(Appended(f, s)) else Panic
    ensures FitsIn(f, s) ==> Appended(f, s).Valid()
    decreases f, 0
  {
    var s2 := Opened(f, s);
    FitsTail(f, s);
    ApplyAllConcat(Flatten(f.kids), [End] + Flatten(f.next), s2);
    RunForest(f.kids, s2);
    if FitsIn(f.kids, s2) {
      CloseNode(f, s);
      RunForest(f.next, Closed(f, s));
      if FitsIn(f, s) {
        AppendNode(f, s);
      }
    }
  }
}
